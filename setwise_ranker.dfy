/** The setwise reranker: a judge model repeatedly picks the most relevant passage of a
    small group, and a d-ary heap sort driven by those picks moves the top documents to
    the end of the list. The plain and the voting comparators share one class, chosen
    by a Selector, as the voting ranker in the source overrides only `compare`. */
module UniversalSetwise {
  import opened Prelude
  import opened UniversalRanker
  import opened SetwiseLabels
  import opened SetwiseVoting
  import opened SetwiseHeap
  import opened SetwiseResults

  /** The Python exceptions the ranker can raise. */
  datatype RankError = IndexError | ValueError | ZeroDivisionError | NotImplementedError(message: string)

  /** The comparator in use: the plain one, or voting over numPermutation rounds
      (with numPermutation == 1 the voting ranker defers to the plain comparator). */
  datatype Selector = Plain | Voting(numPermutation: int)

  const BUBBLESORT_MESSAGE: string := "Bubblesort not implemented in universal version yet"

  /** The message of the NotImplementedError raised for an unknown sort method. */
  function UnknownMethodMessage(name: string): string {
    "Method " + name + " is not implemented."
  }

  /** The random draws of one voting round, random.sample(docs, len(docs)) and
      random.sample(CHARACTERS[:len(docs)], len(docs)): any pair of arrangements. */
  method DrawRound(m: nat) returns (r: Round)
    ensures RoundFor(r, m)
  {
    assert IsPermutation(Identity(m), m);
    var docOrder :| IsPermutation(docOrder, m);
    var labelOrder :| IsPermutation(labelOrder, m);
    r := Round(docOrder, labelOrder);
  }

  /** The vote count: Counter(votes), its maximum, and random.choice among the positions
      that reach it; the label of the pick, or 'A' when nobody voted. */
  method Tally(votes: seq<nat>) returns (c: char)
    requires forall j :: 0 <= j < |votes| ==> votes[j] < |CHARACTERS|
    ensures TallyPick(c, votes)
  {
    if votes == [] {
      return 'A';
    }
    WinnersNonEmpty(votes);
    var winner :| winner in Winners(votes);
    assert winner in votes;
    LabelIndexOfLabel(winner);
    return CHARACTERS[winner];
  }

  /** arr[i], arr[j] = arr[j], arr[i]. */
  method SwapEntries(arr: array<SearchResult>, i: nat, j: nat)
    requires i < arr.Length && j < arr.Length
    modifies arr
    ensures arr[..] == Swap(old(arr[..]), i, j)
  {
    ghost var a := arr[..];
    arr[i], arr[j] := arr[j], arr[i];
    assert arr[..] == Swap(a, i, j);
  }

  /** The group heapify shows the judge, arr[i] followed by arr[d*i + 1 .. min(d*(i + 1) + 1, n)],
      and the list of the positions its entries come from. */
  method GroupLists(arr: array<SearchResult>, d: nat, n: nat, i: nat)
    returns (docs: seq<SearchResult>, inds: seq<nat>)
    requires 1 <= d && n <= arr.Length && Mul(d, i) + 1 < n
    ensures docs == Group(arr[..], d, n, i)
    ensures |inds| == |docs| && forall t :: 0 <= t < |inds| ==> inds[t] == GroupIndex(d, n, i, t)
  {
    var first := Mul(d, i) + 1;
    var stop := Min(Mul(d, i + 1) + 1, n);
    MulStep(d, i);
    ChildAfterParent(d, i);
    docs := [arr[i]] + arr[first..stop];
    inds := [i] + seq(stop - first, t requires 0 <= t < stop - first => first + t);
  }

  class Ranker {
    /** The judge model: the answer it generates for a prompt. */
    const judge: Prompt -> string
    const numChild: nat
    const k: int
    const sortMethod: string
    const selector: Selector
    /** How many judge calls have been charged since the last rerank began. */
    var totalCompare: int

    constructor(judge: Prompt -> string, numChild: nat, k: int, sortMethod: string, selector: Selector)
      ensures this.judge == judge && this.numChild == numChild && this.k == k
      ensures this.sortMethod == sortMethod && this.selector == selector
      ensures totalCompare == 0
    {
      this.judge := judge;
      this.numChild := numChild;
      this.k := k;
      this.sortMethod := sortMethod;
      this.selector := selector;
      totalCompare := 0;
    }

    /** The voting comparator proper is in use (not the plain one it may defer to). */
    predicate Votes() {
      selector.Voting? && selector.numPermutation != 1
    }

    /** What one compare adds to totalCompare. */
    function CompareCost(): int {
      if Votes() then selector.numPermutation else 1
    }

    /** What count compares add to totalCompare, one CompareCost() at a time. */
    function Spent(count: nat): int {
      if count == 0 then 0 else Spent(count - 1) + CompareCost()
    }

    lemma {:induction false} SpentIsProduct(count: nat)
      ensures Spent(count) == CompareCost() * count
    {
      if count > 0 {
        SpentIsProduct(count - 1);
        assert CompareCost() * count == CompareCost() * (count - 1) + CompareCost();
      }
    }

    lemma {:induction false} SpentAdd(x: nat, y: nat)
      ensures Spent(x + y) == Spent(x) + Spent(y)
    {
      if y > 0 {
        SpentAdd(x, y - 1);
      }
    }

    /** Whether compare asks the judge at all: always, except when voting over no rounds. */
    predicate Consults() {
      !Votes() || selector.numPermutation >= 1
    }

    /** The exception compare raises for a group of more than 23 documents. */
    function GroupError(): RankError {
      if Votes() then ValueError else IndexError
    }

    /** The plain comparator: one judge call; the answer is stripped, upper-cased and
        scanned for the first label letter, with 'A' as the fallback. Labelling more
        than 23 documents runs off the end of the alphabet. */
    method PlainCompare(query: string, docs: seq<SearchResult>) returns (r: Result<char, RankError>)
      modifies this
      ensures totalCompare == old(totalCompare) + 1
      ensures |docs| > |CHARACTERS| ==> r == Err(IndexError)
      ensures |docs| <= |CHARACTERS| ==> r == Ok(ParseOutput(judge(GroupPrompt(query, docs))))
    {
      totalCompare := totalCompare + 1;
      if |docs| > |CHARACTERS| {
        return Err(IndexError);
      }
      var output := Strip(judge(GroupPrompt(query, docs)));
      if |output| > 0 {
        var upper := Upper(output);
        var t := 0;
        while t < |upper|
          invariant 0 <= t <= |upper|
          invariant FirstLabel(upper[t..]) == FirstLabel(upper)
        {
          if upper[t] in CHARACTERS {
            return Ok(upper[t]);
          }
          assert upper[t..][1..] == upper[t + 1..];
          t := t + 1;
        }
      }
      return Ok('A');
    }

    /** The voting comparator: numPermutation rounds, each under a fresh random order of
        the documents and of their labels; a round votes only when its answer is exactly
        one of its labels. The pick is a random plurality winner, or 'A' with no votes.
        The random draws are returned as the ghost `rounds`. */
    method VotingCompare(query: string, docs: seq<SearchResult>)
      returns (r: Result<char, RankError>, ghost rounds: seq<Round>)
      requires Votes()
      modifies this
      ensures totalCompare == old(totalCompare) + selector.numPermutation
      ensures r.Err? <==> selector.numPermutation >= 1 && |docs| > |CHARACTERS|
      ensures r.Err? ==> r.error == ValueError
      ensures selector.numPermutation <= 0 ==> r == Ok('A')
      ensures r.Ok? && selector.numPermutation >= 1 ==>
                |docs| <= |CHARACTERS| && |rounds| == selector.numPermutation
                && (forall i :: 0 <= i < |rounds| ==> RoundFor(rounds[i], |docs|))
                && TallyPick(r.value, Candidates(judge, query, docs, rounds))
    {
      totalCompare := totalCompare + selector.numPermutation;
      var m := |docs|;
      var candidates: seq<nat> := [];
      rounds := [];
      var t := 0;
      while t < selector.numPermutation
        invariant 0 <= t <= Max(0, selector.numPermutation)
        invariant totalCompare == old(totalCompare) + selector.numPermutation
        invariant t > 0 ==> m <= |CHARACTERS|
        invariant |rounds| == t && forall i :: 0 <= i < t ==> RoundFor(rounds[i], m)
        invariant t == 0 ==> candidates == []
        invariant forall j :: 0 <= j < |candidates| ==> candidates[j] < m
        invariant m <= |CHARACTERS| ==> candidates == Candidates(judge, query, docs, rounds)
      {
        if m > |CHARACTERS| {
          // random.sample of more labels than the alphabet holds
          return Err(ValueError), rounds;
        }
        var round := DrawRound(m);
        var vote := RoundVote(docs, round, judge(RoundPrompt(query, docs, round)));
        CandidatesAppend(judge, query, docs, rounds, round);
        if vote.Some? {
          candidates := candidates + [vote.value];
        }
        rounds := rounds + [round];
        t := t + 1;
      }
      var c := Tally(candidates);
      return Ok(c), rounds;
    }

    /** pick is what compare answers on the group g: the parsed answer of the judge for
        the plain comparator, 'A' when voting over no rounds, and otherwise a plurality
        pick over the votes of the given rounds, one round per permutation. */
    ghost predicate AnswerOf(query: string, g: seq<SearchResult>, pick: char, rounds: seq<Round>) {
      if !Votes() then
        |g| <= |CHARACTERS| && pick == ParseOutput(judge(GroupPrompt(query, g)))
      else if selector.numPermutation <= 0 then
        pick == 'A'
      else
        |g| <= |CHARACTERS| && |rounds| == selector.numPermutation
        && (forall j :: 0 <= j < |rounds| ==> RoundFor(rounds[j], |g|))
        && TallyPick(pick, Candidates(judge, query, g, rounds))
    }

    /** compare, as the configured ranker dispatches it. Under a perfect judge, whenever
        the judge is consulted the pick names a most relevant document of the group. */
    method Compare(query: string, docs: seq<SearchResult>, ghost key: Relevance)
      returns (r: Result<char, RankError>, ghost rounds: seq<Round>)
      modifies this
      ensures totalCompare == old(totalCompare) + CompareCost()
      ensures r.Err? <==> Consults() && |docs| > |CHARACTERS|
      ensures r.Err? ==> r.error == GroupError()
      ensures r.Ok? ==> r.value in CHARACTERS
      ensures !Votes() && |docs| <= |CHARACTERS| ==> r == Ok(ParseOutput(judge(GroupPrompt(query, docs))))
      ensures Votes() && selector.numPermutation <= 0 ==> r == Ok('A')
      ensures r.Ok? ==> AnswerOf(query, docs, r.value, rounds)
      ensures r.Ok? && PerfectJudge(judge, key) && Consults() && 1 <= |docs| ==>
                LabelIndex(r.value).Some? && IsBestDoc(docs, key, LabelIndex(r.value).value)
    {
      CharactersAreAToW();
      if !Votes() {
        r := PlainCompare(query, docs);
        rounds := [];
        if r.Ok? && PerfectJudge(judge, key) && 1 <= |docs| {
          PerfectJudgeParsesBest(judge, key, query, docs);
        }
      } else {
        r, rounds := VotingCompare(query, docs);
        if r.Ok? && PerfectJudge(judge, key) && Consults() && 1 <= |docs| {
          PerfectVoteIsBest(judge, key, query, docs, rounds, r.value);
        }
      }
    }

    /** The comparison step of heapify: the group is arr[i] followed by i's children
        inside the window, and the label the comparator picks is mapped back to a
        position through the list of group indices; a label beyond the group (or not
        a label at all) keeps i. pick is compare's answer on that group (AnswerOf) and
        the result is the position PickPosition reads off pick's label index b; that
        tie is stated for a bound b so that a caller only unfolds it when it names a
        PickPosition itself. */
    method ChooseLargest(arr: array<SearchResult>, n: nat, i: nat, query: string, ghost key: Relevance)
      returns (r: Result<nat, RankError>, pick: char, ghost rounds: seq<Round>)
      requires 1 <= numChild && n <= arr.Length && Mul(numChild, i) + 1 < n
      modifies this
      ensures totalCompare == old(totalCompare) + CompareCost()
      ensures r.Err? <==> Consults() && numChild >= |CHARACTERS| && Mul(numChild, i) + |CHARACTERS| < n
      ensures r.Err? ==> r.error == GroupError()
      ensures r.Ok? ==> r.value < n && (r.value != i ==> i < r.value && Parent(r.value, numChild) == i)
      ensures r.Ok? ==> pick in CHARACTERS
                        && forall b :: b == LabelPosition(pick) ==> r.value == PickPosition(numChild, n, i, b)
      ensures r.Ok? ==> AnswerOf(query, Group(arr[..], numChild, n, i), pick, rounds)
      ensures r.Ok? && PerfectJudge(judge, key) && Consults() ==>
                var a, largest := arr[..], r.value;
                key(a[i].text) <= key(a[largest].text)
                && forall c :: 1 <= c < n && Parent(c, numChild) == i ==> key(a[c].text) <= key(a[largest].text)
    {
      var docs, inds := GroupLists(arr, numChild, n, i);
      var choice;
      choice, rounds := Compare(query, docs, key);
      if choice.Err? {
        return Err(choice.error), 'A', rounds;
      }
      pick := choice.value;
      var bestInd := LabelPosition(pick);
      var largest := if bestInd < |inds| then inds[bestInd] else i;
      GroupSize(arr[..], numChild, n, i);
      assert largest == PickPosition(numChild, n, i, bestInd);
      if PerfectJudge(judge, key) && Consults() {
        BestOfGroup(arr[..], key, numChild, n, i, bestInd);
      }
      return Ok(largest), pick, rounds;
    }

    /** heapify(arr, n, i): when i has a child inside the window a[..n], the judge picks
        the best of i and its children; if that is a child, it is swapped up and the
        sift continues there. Under a perfect judge a sift from a ready hole (SiftReady)
        leaves the region below lo a heap; lo is a ghost bookkeeping parameter. */
    method Heapify(arr: array<SearchResult>, n: nat, i: nat, query: string,
                   ghost key: Relevance, ghost lo: nat)
      returns (err: Option<RankError>, ghost compares: nat)
      requires 1 <= numChild && n <= arr.Length
      modifies this, arr
      decreases n - i, 1
      ensures multiset(arr[..n]) == multiset(old(arr[..n])) && arr[n..] == old(arr[n..])
      ensures Mul(numChild, i) + 1 >= n ==> arr[..] == old(arr[..]) && compares == 0 && err.None?
      ensures Mul(numChild, i) + 1 < n ==> 1 <= compares <= n - i
      ensures totalCompare == old(totalCompare) + Spent(compares)
      ensures err.Some? ==>
                err.value == GroupError() && Consults() && numChild >= |CHARACTERS| && Mul(numChild, i) + |CHARACTERS| < n
      ensures Consults() && numChild >= |CHARACTERS| && Mul(numChild, i) + |CHARACTERS| < n ==> err.Some?
      ensures err.None? && PerfectJudge(judge, key) && Consults()
              && SiftReady(old(arr[..]), key, numChild, n, i, lo) ==>
                HeapBelow(arr[..], key, numChild, n, lo, n)
    {
      err, compares := None, 0;
      ghost var a := arr[..];
      ghost var ready := PerfectJudge(judge, key) && Consults() && SiftReady(a, key, numChild, n, i, lo);
      if Mul(numChild, i) + 1 < n {
        ChildAfterParent(numChild, i);
        var choice, _, _ := ChooseLargest(arr, n, i, query, key);
        compares := 1;
        assert Spent(1) == CompareCost();
        if choice.Err? {
          return Some(choice.error), compares;
        }
        var largest := choice.value;
        if largest != i {
          ghost var more;
          err, more := SwapDown(arr, n, i, largest, query, key, lo);
          assert Spent(more + 1) == Spent(more) + CompareCost();
          compares := more + 1;
        } else if ready {
          SiftSettles(a, key, numChild, n, i, lo);
        }
      } else if ready {
        LeafSettles(a, key, numChild, n, i, lo);
      }
    }

    /** The swap and the recursive call of heapify, once the judge has picked a child
        largest of i: arr[i] and arr[largest] are exchanged and the sift continues at
        largest. A ready hole at i with largest ranking highest becomes a ready hole
        at largest. */
    method SwapDown(arr: array<SearchResult>, n: nat, i: nat, largest: nat, query: string,
                    ghost key: Relevance, ghost lo: nat)
      returns (err: Option<RankError>, ghost compares: nat)
      requires 1 <= numChild && n <= arr.Length && i < largest < n && Parent(largest, numChild) == i
      modifies this, arr
      decreases n - i, 0
      ensures multiset(arr[..n]) == multiset(old(arr[..n])) && arr[n..] == old(arr[n..])
      ensures compares <= n - largest
      ensures totalCompare == old(totalCompare) + Spent(compares)
      ensures err.Some? ==>
                err.value == GroupError() && Consults() && numChild >= |CHARACTERS| && Mul(numChild, i) + |CHARACTERS| < n
      ensures err.None? && PerfectJudge(judge, key) && Consults()
              && SiftReady(old(arr[..]), key, numChild, n, i, lo)
              && key(old(arr[i]).text) <= key(old(arr[largest]).text)
              && (forall c :: 1 <= c < n && Parent(c, numChild) == i ==>
                    key(old(arr[c]).text) <= key(old(arr[largest]).text)) ==>
                HeapBelow(arr[..], key, numChild, n, lo, n)
    {
      ghost var a := arr[..];
      ghost var ready := PerfectJudge(judge, key) && Consults() && SiftReady(a, key, numChild, n, i, lo)
                         && key(a[i].text) <= key(a[largest].text)
                         && forall c :: 1 <= c < n && Parent(c, numChild) == i ==>
                              key(a[c].text) <= key(a[largest].text);
      SwapEntries(arr, i, largest);
      SwapInWindow(a, n, i, largest);
      if ready {
        SiftMovesDown(a, key, numChild, n, i, lo, largest);
      }
      err, compares := Heapify(arr, n, largest, query, key, lo);
      MulMonotone(numChild, i, largest);
    }

    /** heapify(arr, n, i) in the build phase, on the whole array: under a perfect
        judge a heap below i + 1 becomes a heap below i. The sift from the root fails
        once numChild >= 23 and n > 23. */
    method BuildStep(arr: array<SearchResult>, i: nat, query: string, ghost key: Relevance)
      returns (err: Option<RankError>, ghost compares: nat)
      requires 1 <= numChild
      requires PerfectJudge(judge, key) && Consults() ==>
                 HeapBelow(arr[..], key, numChild, arr.Length, i + 1, arr.Length)
      modifies this, arr
      ensures multiset(arr[..]) == multiset(old(arr[..]))
      ensures compares <= arr.Length
      ensures totalCompare == old(totalCompare) + Spent(compares)
      ensures err.Some? ==>
                err.value == GroupError() && Consults() && numChild >= |CHARACTERS| && Mul(numChild, i) + |CHARACTERS| < arr.Length
      ensures Consults() && numChild >= |CHARACTERS| && Mul(numChild, i) + |CHARACTERS| < arr.Length ==> err.Some?
      ensures err.None? && PerfectJudge(judge, key) && Consults() ==>
                HeapBelow(arr[..], key, numChild, arr.Length, i, arr.Length)
    {
      var n := arr.Length;
      ghost var a := arr[..];
      if PerfectJudge(judge, key) && Consults() {
        BuildStepReady(a, key, numChild, n, i);
      }
      if i == 0 {
        assert Mul(numChild, i) == 0;
      }
      err, compares := Heapify(arr, n, i, query, key, i);
      assert arr[..n] == arr[..] && a[..n] == a;
    }

    /** The build phase of heapSort: heapify(arr, n, i) for i from n / numChild down
        to 0. It fails exactly when a group of more than 23 documents is compared, which
        the sift from the root forces once numChild >= 23 and n > 23. Under a perfect
        judge the whole array ends up a heap. */
    method BuildHeap(arr: array<SearchResult>, query: string, ghost key: Relevance)
      returns (err: Option<RankError>, ghost compares: nat)
      requires 1 <= numChild
      modifies this, arr
      ensures multiset(arr[..]) == multiset(old(arr[..]))
      ensures compares <= Mul(arr.Length, Quot(arr.Length, numChild) + 1)
      ensures totalCompare == old(totalCompare) + Spent(compares)
      ensures err.Some? <==> Consults() && numChild >= |CHARACTERS| && arr.Length > |CHARACTERS|
      ensures err.Some? ==> err.value == GroupError()
      ensures err.None? && PerfectJudge(judge, key) && Consults() ==>
                IsHeap(arr[..], key, numChild, arr.Length)
    {
      err, compares := None, 0;
      var n := arr.Length;
      ghost var perfect := PerfectJudge(judge, key) && Consults();
      HeapBelowLastParent(arr[..], key, numChild, n);
      var i: int := Quot(n, numChild);
      while i >= 0
        invariant -1 <= i <= Quot(n, numChild)
        invariant compares <= Mul(n, Quot(n, numChild) - i)
        invariant multiset(arr[..]) == multiset(old(arr[..]))
        invariant totalCompare == old(totalCompare) + Spent(compares)
        invariant perfect ==> HeapBelow(arr[..], key, numChild, n, i + 1, n)
        invariant i < 0 ==> !(Consults() && numChild >= |CHARACTERS| && n > |CHARACTERS|)
      {
        var e, c := BuildStep(arr, i, query, key);
        SpentAdd(compares, c);
        MulStep(n, Quot(n, numChild) - i);
        compares := compares + c;
        if e.Some? {
          MulMonotone(n, Quot(n, numChild) - i + 1, Quot(n, numChild) + 1);
          return e, compares;
        }
        i := i - 1;
      }
    }

    /** The extraction phase of heapSort: the root is moved behind the shrinking window
        and the hole sifted, stopping after k moves (never, for k <= 0). Under a perfect
        judge the last ExtractionCount(n, k) slots end up holding the largest documents
        in ascending order. */
    method ExtractTop(arr: array<SearchResult>, query: string, k: int, ghost key: Relevance)
      returns (ranked: nat, ghost compares: nat)
      requires 1 <= numChild
      requires !(Consults() && numChild >= |CHARACTERS| && arr.Length > |CHARACTERS|)
      requires PerfectJudge(judge, key) && Consults() ==> IsHeap(arr[..], key, numChild, arr.Length)
      modifies this, arr
      ensures multiset(arr[..]) == multiset(old(arr[..]))
      ensures compares <= Mul(arr.Length, ExtractionCount(arr.Length, k))
      ensures totalCompare == old(totalCompare) + Spent(compares)
      ensures ranked == ExtractionCount(arr.Length, k)
      ensures PerfectJudge(judge, key) && Consults() ==>
                SortedFrom(arr[..], key, arr.Length - ExtractionCount(arr.Length, k))
    {
      compares := 0;
      var n := arr.Length;
      ghost var perfect := PerfectJudge(judge, key) && Consults();
      ranked := 0;
      var i := n - 1;
      while i >= 1
        invariant -1 <= i < n && (n == 0 || 0 <= i) && ranked == n - 1 - i
        invariant k <= 0 || ranked < k
        invariant compares <= Mul(n, ranked)
        invariant multiset(arr[..]) == multiset(old(arr[..]))
        invariant totalCompare == old(totalCompare) + Spent(compares)
        invariant perfect ==> IsHeap(arr[..], key, numChild, i + 1) && SortedFrom(arr[..], key, i + 1)
      {
        MoveRoot(arr, i, key);
        MulStep(n, ranked);
        ranked := ranked + 1;
        if ranked == k {
          break;
        }
        ghost var c := SiftRoot(arr, i, query, key);
        SpentAdd(compares, c);
        compares := compares + c;
        i := i - 1;
      }
    }

    /** arr[i], arr[0] = arr[0], arr[i] in the extraction phase: under a perfect judge
        the root, a maximum of the heap a[..i + 1], joins the sorted tail, leaving a
        hole at the root of the window a[..i]. */
    method MoveRoot(arr: array<SearchResult>, i: nat, ghost key: Relevance)
      requires 1 <= numChild && 1 <= i < arr.Length
      requires PerfectJudge(judge, key) && Consults() ==>
                 IsHeap(arr[..], key, numChild, i + 1) && SortedFrom(arr[..], key, i + 1)
      modifies arr
      ensures arr[0] == old(arr[i]) && arr[i] == old(arr[0])
      ensures forall t :: 0 < t < arr.Length && t != i ==> arr[t] == old(arr[t])
      ensures multiset(arr[..]) == multiset(old(arr[..]))
      ensures PerfectJudge(judge, key) && Consults() ==>
                SiftReady(arr[..], key, numChild, i, 0, 0) && SortedFrom(arr[..], key, i)
    {
      ghost var a := arr[..];
      SwapEntries(arr, i, 0);
      SwapInWindow(a, |a|, i, 0);
      assert a[..|a|] == a && arr[..|a|] == arr[..];
      if PerfectJudge(judge, key) && Consults() {
        ExtractStep(a, key, numChild, i);
      }
    }

    /** heapify(arr, i, 0) in the extraction phase: the sift from the root of the
        window a[..i] cannot fail, keeps what lies behind the window, and under a
        perfect judge restores the heap without disturbing the sorted tail. */
    method SiftRoot(arr: array<SearchResult>, i: nat, query: string, ghost key: Relevance)
      returns (ghost compares: nat)
      requires 1 <= numChild && 1 <= i < arr.Length
      requires !(Consults() && numChild >= |CHARACTERS| && arr.Length > |CHARACTERS|)
      requires PerfectJudge(judge, key) && Consults() ==>
                 SiftReady(arr[..], key, numChild, i, 0, 0) && SortedFrom(arr[..], key, i)
      modifies this, arr
      ensures multiset(arr[..]) == multiset(old(arr[..]))
      ensures compares <= i
      ensures totalCompare == old(totalCompare) + Spent(compares)
      ensures PerfectJudge(judge, key) && Consults() ==>
                IsHeap(arr[..], key, numChild, i) && SortedFrom(arr[..], key, i)
    {
      ghost var b := arr[..];
      var e;
      e, compares := Heapify(arr, i, 0, query, key, 0);
      // groups stay within the alphabet, so the sift cannot raise
      assert e.None?;
      WindowKeepsContents(b, arr[..], i);
      if PerfectJudge(judge, key) && Consults() {
        SortedFromPrefixShuffle(b, arr[..], key, i);
      }
    }

    /** heapSort(arr, query, k): numChild == 0 divides by zero before anything moves;
        otherwise the build phase, then the extraction phase. */
    method HeapSort(arr: array<SearchResult>, query: string, k: int, ghost key: Relevance)
      returns (err: Option<RankError>, ghost compares: nat)
      modifies this, arr
      ensures multiset(arr[..]) == multiset(old(arr[..]))
      ensures totalCompare == old(totalCompare) + Spent(compares)
      ensures err.Some? <==>
                numChild == 0 || (Consults() && numChild >= |CHARACTERS| && arr.Length > |CHARACTERS|)
      ensures err.Some? ==> err.value == (if numChild == 0 then ZeroDivisionError else GroupError())
      ensures numChild == 0 ==> arr[..] == old(arr[..]) && compares == 0
      ensures 1 <= numChild ==>
                compares <= Mul(arr.Length, Quot(arr.Length, numChild) + 1)
                            + Mul(arr.Length, ExtractionCount(arr.Length, k))
      ensures err.None? && PerfectJudge(judge, key) && Consults() ==>
                SortedFrom(arr[..], key, arr.Length - ExtractionCount(arr.Length, k))
    {
      if numChild == 0 {
        return Some(ZeroDivisionError), 0;
      }
      err, compares := BuildHeap(arr, query, key);
      if err.Some? {
        return;
      }
      var _, more := ExtractTop(arr, query, k, key);
      SpentAdd(compares, more);
      compares := compares + more;
    }

    /** rerank(query, ranking): sorts the caller's list in place with heapSort, then
        lists the top len(ranking[:k]) documents of the reversed list followed by the
        documents of the original (copied) list whose id is not among them, scored
        -1, -2, ... and without text. Any sort method other than "heapsort" raises
        NotImplementedError. */
    method Rerank(query: string, ranking: array<SearchResult>, ghost key: Relevance)
      returns (r: Result<seq<SearchResult>, RankError>, ghost compares: nat)
      modifies this, ranking
      ensures sortMethod != "heapsort" ==>
                ranking[..] == old(ranking[..]) && totalCompare == 0
                && r == Err(NotImplementedError(
                     if sortMethod == "bubblesort" then BUBBLESORT_MESSAGE
                     else UnknownMethodMessage(sortMethod)))
      ensures sortMethod == "heapsort" ==>
                multiset(ranking[..]) == multiset(old(ranking[..]))
                && (r.Err? <==>
                      numChild == 0 || (Consults() && numChild >= |CHARACTERS| && ranking.Length > |CHARACTERS|))
                && (r.Err? ==> r.error == (if numChild == 0 then ZeroDivisionError else GroupError()))
                && totalCompare == Spent(compares)
                && (numChild == 0 ==> compares == 0)
                && (1 <= numChild ==>
                      compares <= Mul(ranking.Length, Quot(ranking.Length, numChild) + 1)
                                  + Mul(ranking.Length, ExtractionCount(ranking.Length, k)))
      ensures r.Ok? ==>
                r.value == Assemble(Reverse(ranking[..])[..PrefixLen(k, ranking.Length)], old(ranking[..]))
      ensures r.Ok? && Distinct(Ids(old(ranking[..]))) ==>
                Distinct(Ids(r.value)) && Members(Ids(r.value)) == Members(Ids(old(ranking[..])))
                && |r.value| == ranking.Length
      ensures r.Ok? && PerfectJudge(judge, key) && Consults() ==>
                var s := Reverse(ranking[..]);
                var m := PrefixLen(k, ranking.Length);
                RankedTop(s[..m], s[m..], key)
    {
      var original := ranking[..];
      totalCompare := 0;
      if sortMethod == "heapsort" {
        var e;
        e, compares := HeapSort(ranking, query, k, key);
        if e.Some? {
          return Err(e.value), compares;
        }
      } else if sortMethod == "bubblesort" {
        return Err(NotImplementedError(BUBBLESORT_MESSAGE)), 0;
      } else {
        return Err(NotImplementedError(UnknownMethodMessage(sortMethod))), 0;
      }
      var reversed := Reverse(ranking[..]);
      var top := reversed[..PrefixLen(k, |reversed|)];
      var head, topIds := ListTop(top);
      var results := ListRest(original, topIds, Ids(top), head);
      if Distinct(Ids(original)) {
        RerankListsEveryIdOnce(ranking[..], original, k);
      }
      if PerfectJudge(judge, key) && Consults() {
        SortedTailIsTop(ranking[..], key, k);
      }
      return Ok(results), compares;
    }
  }
}
