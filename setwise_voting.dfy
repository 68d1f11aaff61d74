/** The voting comparator's rounds and tally. Each round shows the group's documents
    in a random order under a random arrangement of its labels; the answer is mapped
    back to a position in the original group, and the positions are counted. The
    random draws are inputs here (a Round), not a generator. */
module SetwiseVoting {
  import opened Prelude
  import opened UniversalRanker
  import opened SetwiseLabels

  /** p lists each of 0 .. m-1 exactly once: one outcome of random.sample over m items. */
  predicate IsPermutation(p: seq<nat>, m: nat) {
    |p| == m && Distinct(p) && forall t :: 0 <= t < m ==> p[t] < m
  }

  /** The identity arrangement, which shows every permutation size can be drawn. */
  function Identity(m: nat): (p: seq<nat>)
    ensures IsPermutation(p, m)
  {
    seq(m, t => t)
  }

  /** s rearranged by p: element t is s[p[t]]. */
  function Permute<T>(s: seq<T>, p: seq<nat>): (r: seq<T>)
    requires forall t :: 0 <= t < |p| ==> p[t] < |s|
    ensures |r| == |p| && forall t :: 0 <= t < |p| ==> r[t] == s[p[t]]
  {
    seq(|p|, t requires 0 <= t < |p| => s[p[t]])
  }

  /** The random draws of one round: the order the documents are shown in, and which
      of the first m labels each shown position gets. */
  datatype Round = Round(docOrder: seq<nat>, labelOrder: seq<nat>)

  predicate RoundFor(r: Round, m: nat) {
    IsPermutation(r.docOrder, m) && IsPermutation(r.labelOrder, m)
  }

  /** The labels of a round, position by position. */
  function RoundLabels(r: Round, m: nat): seq<char>
    requires RoundFor(r, m) && m <= |CHARACTERS|
  {
    Permute(CHARACTERS, r.labelOrder)
  }

  /** The prompt of one round. */
  function RoundPrompt(query: string, docs: seq<SearchResult>, r: Round): Prompt
    requires RoundFor(r, |docs|) && |docs| <= |CHARACTERS|
  {
    Prompt(query, RoundLabels(r, |docs|), Texts(Permute(docs, r.docOrder)))
  }

  /** The position in the original group that one round's answer votes for. The round
      counts only when the stripped, upper-cased answer is exactly one of its labels;
      the document under that label is then looked up in the group with list.index,
      which finds the first equal document. */
  function RoundVote(docs: seq<SearchResult>, r: Round, output: string): (v: Option<nat>)
    requires RoundFor(r, |docs|) && |docs| <= |CHARACTERS|
    ensures v.Some? ==> v.value < |docs|
  {
    var answer := Upper(Strip(output));
    var labels := RoundLabels(r, |docs|);
    if |answer| == 1 && answer[0] in labels then
      var shown := IndexOf(labels, answer[0]).value;
      IndexOf(docs, Permute(docs, r.docOrder)[shown])
    else None
  }

  /** A permutation of a distinct list is distinct and has the same members. */
  lemma PermutePreserves<T>(s: seq<T>, p: seq<nat>)
    requires IsPermutation(p, |s|)
    ensures Distinct(s) ==> Distinct(Permute(s, p))
    ensures forall x :: x in Permute(s, p) <==> x in s
  {
    var r := Permute(s, p);
    forall x | x in s ensures x in r {
      var i :| 0 <= i < |s| && s[i] == x;
      PermutationHits(p, |s|, i);
    }
  }

  /** Every index below m occurs in a permutation of size m. */
  lemma PermutationHits(p: seq<nat>, m: nat, i: nat)
    requires IsPermutation(p, m) && i < m
    ensures i in p
  {
    var id := Identity(m);
    forall x | x in Members(p) ensures x in Members(id) {
      assert id[x] == x;
    }
    DistinctSetSize(p);
    DistinctSetSize(id);
    assert id[i] == i && i in Members(id);
    if i !in p {
      ProperSubsetSmaller(Members(p), Members(id), i);
    }
  }

  lemma SingleLetterSurvivesCleaning(c: char)
    requires c in CHARACTERS
    ensures Upper(Strip([c])) == [c]
  {
    CharactersAreAToW();
    assert 'A' <= c <= 'W' && !IsSpace(c);
    assert LeadingBlanks([c]) == 0;
    assert TrailingBlanks([c]) == 0;
    assert Upper([c]) == [UpperChar(c)];
  }

  /** A round whose answer is exactly the label shown at position t votes for the
      document shown there (for the first equal copy of it in the group). */
  lemma RoundVoteElects(docs: seq<SearchResult>, r: Round, output: string, t: nat)
    requires RoundFor(r, |docs|) && |docs| <= |CHARACTERS| && t < |docs|
    requires Upper(Strip(output)) == [RoundLabels(r, |docs|)[t]]
    ensures RoundVote(docs, r, output).Some?
    ensures var j := RoundVote(docs, r, output).value;
            docs[j] == docs[r.docOrder[t]] && j <= r.docOrder[t]
            && (forall u :: 0 <= u < j ==> docs[u] != docs[r.docOrder[t]])
            && (Distinct(docs) ==> j == r.docOrder[t])
  {
    CharactersAreAToW();
    PermutePreserves(CHARACTERS[..|docs|], r.labelOrder);
    var labels := RoundLabels(r, |docs|);
    assert Permute(CHARACTERS[..|docs|], r.labelOrder) == labels;
    assert IndexOf(labels, labels[t]).value == t;
  }

  /** An answer that is not exactly one of the group's first |docs| labels is dropped:
      longer answers, the empty answer, and letters beyond the group alike. */
  lemma RoundVoteDrops(docs: seq<SearchResult>, r: Round, output: string)
    requires RoundFor(r, |docs|) && |docs| <= |CHARACTERS|
    requires var answer := Upper(Strip(output));
             |answer| != 1 || answer[0] !in CHARACTERS[..|docs|]
    ensures RoundVote(docs, r, output) == None
  {
    PermutePreserves(CHARACTERS[..|docs|], r.labelOrder);
    assert Permute(CHARACTERS[..|docs|], r.labelOrder) == RoundLabels(r, |docs|);
  }

  // ---------------------------------------------------------------------------
  // The tally

  /** The votes of the rounds that parsed, in round order. */
  function Candidates(judge: Prompt -> string, query: string, docs: seq<SearchResult>,
                      rounds: seq<Round>): (c: seq<nat>)
    requires |docs| <= |CHARACTERS| && forall i :: 0 <= i < |rounds| ==> RoundFor(rounds[i], |docs|)
    ensures |c| <= |rounds| && forall t :: 0 <= t < |c| ==> c[t] < |docs|
  {
    if rounds == [] then []
    else
      var last := rounds[|rounds| - 1];
      var earlier := Candidates(judge, query, docs, rounds[..|rounds| - 1]);
      match RoundVote(docs, last, judge(RoundPrompt(query, docs, last)))
      case None => earlier
      case Some(j) => earlier + [j]
  }

  /** One more round adds its vote, if it casts one, at the end. */
  lemma CandidatesAppend(judge: Prompt -> string, query: string, docs: seq<SearchResult>,
                         rounds: seq<Round>, r: Round)
    requires |docs| <= |CHARACTERS| && RoundFor(r, |docs|)
    requires forall i :: 0 <= i < |rounds| ==> RoundFor(rounds[i], |docs|)
    ensures var v := RoundVote(docs, r, judge(RoundPrompt(query, docs, r)));
            Candidates(judge, query, docs, rounds + [r])
            == Candidates(judge, query, docs, rounds) + (if v.Some? then [v.value] else [])
  {
    assert (rounds + [r])[..|rounds|] == rounds;
  }

  /** The largest count among the elements of xs (0 for none), counts taken in c. */
  function MaxCountOver(c: seq<nat>, xs: seq<nat>): (m: nat)
    ensures forall t :: 0 <= t < |xs| ==> multiset(c)[xs[t]] <= m
    ensures xs != [] ==> exists t :: 0 <= t < |xs| && multiset(c)[xs[t]] == m
  {
    if xs == [] then 0
    else
      var rest := MaxCountOver(c, xs[1..]);
      assert forall t :: 1 <= t < |xs| ==> xs[t] == xs[1..][t - 1];
      if multiset(c)[xs[0]] >= rest then multiset(c)[xs[0]] else rest
  }

  /** max(Counter(c).values()), 0 for no votes. */
  function MaxCount(c: seq<nat>): nat {
    MaxCountOver(c, c)
  }

  /** The positions whose count equals the maximum: the ones random.choice picks from. */
  function Winners(c: seq<nat>): set<nat> {
    set x | x in c && multiset(c)[x] == MaxCount(c)
  }

  /** A position is a winner exactly when it received a vote and no position
      received more votes. */
  lemma WinnersArePluralities(c: seq<nat>, x: nat)
    ensures x in Winners(c) <==> x in c && forall y :: multiset(c)[y] <= multiset(c)[x]
  {
    var m := MaxCount(c);
    forall y | y in c ensures multiset(c)[y] <= m {
      var t :| 0 <= t < |c| && c[t] == y;
    }
    if x in c && forall y :: multiset(c)[y] <= multiset(c)[x] {
      var t :| 0 <= t < |c| && multiset(c)[c[t]] == m;
      assert multiset(c)[c[t]] <= multiset(c)[x];
    }
  }

  /** Some round parsed, so someone wins. */
  lemma WinnersNonEmpty(c: seq<nat>)
    requires c != []
    ensures Winners(c) != {}
  {
    var t :| 0 <= t < |c| && multiset(c)[c[t]] == MaxCount(c);
    assert c[t] in Winners(c);
  }

  lemma {:induction false} TwoCountsFit(c: seq<nat>, x: nat, y: nat)
    requires x != y
    ensures multiset(c)[x] + multiset(c)[y] <= |c|
  {
    if c != [] {
      TwoCountsFit(c[..|c| - 1], x, y);
      assert c == c[..|c| - 1] + [c[|c| - 1]];
    }
  }

  /** A position voted for by more than half of the parsed rounds is the only winner. */
  lemma MajorityWins(c: seq<nat>, x: nat)
    requires 2 * multiset(c)[x] > |c|
    ensures Winners(c) == {x}
  {
    forall y | y != x ensures multiset(c)[y] < multiset(c)[x] {
      TwoCountsFit(c, x, y);
    }
    forall y ensures multiset(c)[y] <= multiset(c)[x] {
    }
    WinnersArePluralities(c, x);
    forall w | w in Winners(c) ensures w == x {
      WinnersArePluralities(c, w);
      assert multiset(c)[x] <= multiset(c)[w];
    }
  }

  // ---------------------------------------------------------------------------
  // Under a perfect judge

  lemma RoundPromptIsValid(query: string, docs: seq<SearchResult>, r: Round)
    requires 1 <= |docs| <= |CHARACTERS| && RoundFor(r, |docs|)
    ensures ValidPrompt(RoundPrompt(query, docs, r))
  {
    CharactersAreAToW();
    PermutePreserves(CHARACTERS[..|docs|], r.labelOrder);
    assert Permute(CHARACTERS[..|docs|], r.labelOrder) == RoundLabels(r, |docs|);
  }

  /** Showing the documents in another order shows their passages in that order. */
  lemma TextsOfPermute(docs: seq<SearchResult>, order: seq<nat>)
    requires IsPermutation(order, |docs|)
    ensures Texts(Permute(docs, order)) == Permute(Texts(docs), order)
  {
  }

  /** A most relevant passage of a shuffled list is a most relevant passage of the
      list, wherever the list holds that passage. */
  lemma BestSurvivesShuffle(s: seq<Option<string>>, order: seq<nat>, key: Relevance, t: nat, j: nat)
    requires IsPermutation(order, |s|) && t < |s| && j < |s|
    requires s[j] == s[order[t]]
    requires IsBestAt(Permute(s, order), key, t)
    ensures IsBestAt(s, key, j)
  {
    forall u | 0 <= u < |s| ensures key(s[u]) <= key(s[j]) {
      PermutationHits(order, |s|, u);
      var w := IndexOf(order, u).value;
      assert Permute(s, order)[w] == s[u];
    }
  }

  /** The bare label shown at position t votes for the document shown there. */
  lemma BareLabelVote(docs: seq<SearchResult>, r: Round, t: nat) returns (j: nat)
    requires RoundFor(r, |docs|) && |docs| <= |CHARACTERS| && t < |docs|
    ensures RoundVote(docs, r, [RoundLabels(r, |docs|)[t]]) == Some(j)
    ensures docs[j] == docs[r.docOrder[t]]
  {
    var output := [RoundLabels(r, |docs|)[t]];
    SingleLetterSurvivesCleaning(output[0]);
    RoundVoteElects(docs, r, output, t);
    j := RoundVote(docs, r, output).value;
  }

  /** A round answered with the bare label of a most relevant shown passage votes for
      a most relevant document of the group. */
  lemma BareBestLabelElectsBest(key: Relevance, docs: seq<SearchResult>, r: Round, t: nat,
                                answer: string)
    requires 1 <= |docs| <= |CHARACTERS| && RoundFor(r, |docs|) && t < |docs|
    requires answer == [RoundLabels(r, |docs|)[t]]
    requires IsBestAt(Texts(Permute(docs, r.docOrder)), key, t)
    ensures var v := RoundVote(docs, r, answer);
            v.Some? && IsBestDoc(docs, key, v.value)
  {
    var j := BareLabelVote(docs, r, t);
    TextsOfPermute(docs, r.docOrder);
    BestSurvivesShuffle(Texts(docs), r.docOrder, key, t, j);
    BestTextIsBestDoc(docs, key, j);
  }

  /** A round whose answer names a most relevant shown passage votes for a most
      relevant document of the group. */
  lemma BestAnswerElectsBest(key: Relevance, query: string, docs: seq<SearchResult>, r: Round,
                             answer: string)
    requires 1 <= |docs| <= |CHARACTERS| && RoundFor(r, |docs|)
    requires AnswersBest(RoundPrompt(query, docs, r), key, answer)
    ensures var v := RoundVote(docs, r, answer);
            v.Some? && IsBestDoc(docs, key, v.value)
  {
    var p := RoundPrompt(query, docs, r);
    BareBestLabelElectsBest(key, docs, r, IndexOf(p.labels, answer[0]).value, answer);
  }

  /** Under a perfect judge every round parses and votes for a most relevant document. */
  lemma PerfectRoundElectsBest(judge: Prompt -> string, key: Relevance, query: string,
                               docs: seq<SearchResult>, r: Round)
    requires PerfectJudge(judge, key) && 1 <= |docs| <= |CHARACTERS| && RoundFor(r, |docs|)
    ensures var v := RoundVote(docs, r, judge(RoundPrompt(query, docs, r)));
            v.Some? && IsBestDoc(docs, key, v.value)
  {
    RoundPromptIsValid(query, docs, r);
    BestAnswerElectsBest(key, query, docs, r, judge(RoundPrompt(query, docs, r)));
  }

  /** Under a perfect judge every round votes, and every vote is for a most relevant document. */
  lemma {:induction false} PerfectCandidatesAreBest(judge: Prompt -> string, key: Relevance,
                                                    query: string, docs: seq<SearchResult>,
                                                    rounds: seq<Round>)
    requires PerfectJudge(judge, key) && 1 <= |docs| <= |CHARACTERS|
    requires forall i :: 0 <= i < |rounds| ==> RoundFor(rounds[i], |docs|)
    ensures var c := Candidates(judge, query, docs, rounds);
            |c| == |rounds| && forall t :: 0 <= t < |c| ==> IsBestDoc(docs, key, c[t])
  {
    if rounds != [] {
      var last := rounds[|rounds| - 1];
      PerfectCandidatesAreBest(judge, key, query, docs, rounds[..|rounds| - 1]);
      PerfectRoundElectsBest(judge, key, query, docs, last);
    }
  }

  /** What the voting comparator may report for the collected votes: 'A' when no
      round parsed, otherwise the label of one of the most voted positions. */
  ghost predicate TallyPick(c: char, votes: seq<nat>) {
    if votes == [] then c == 'A'
    else LabelIndex(c).Some? && LabelIndex(c).value in Winners(votes)
  }

  /** Under a perfect judge, a plurality pick over at least one round names a most
      relevant document. */
  lemma PerfectVoteIsBest(judge: Prompt -> string, key: Relevance, query: string,
                          docs: seq<SearchResult>, rounds: seq<Round>, c: char)
    requires PerfectJudge(judge, key) && 1 <= |docs| <= |CHARACTERS| && |rounds| >= 1
    requires forall i :: 0 <= i < |rounds| ==> RoundFor(rounds[i], |docs|)
    requires TallyPick(c, Candidates(judge, query, docs, rounds))
    ensures LabelIndex(c).Some? && IsBestDoc(docs, key, LabelIndex(c).value)
  {
    var votes := Candidates(judge, query, docs, rounds);
    PerfectCandidatesAreBest(judge, key, query, docs, rounds);
    var w := LabelIndex(c).value;
    assert w in votes;
    var t :| 0 <= t < |votes| && votes[t] == w;
  }
}
