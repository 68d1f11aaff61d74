# Setwise LLM reranking, modelled in Dafny

This project models the core of a "universal" setwise reranker. The ranker reorders
a list of search results for a query by asking a language model, again and again,
which passage of a small labelled group (letters A to W) is the most relevant one.
It has two parts.

* **The setwise ranker** (`llmrankers/universal_setwise.py`). The plain `compare`
  labels the passages, calls the model once and parses the first label letter of the
  answer, with `A` as the fallback. The voting `compare` runs several rounds, each
  with shuffled documents and shuffled labels, and takes a plurality vote.
  `heapify` and `heapSort` make a `num_child`-ary max-heap of the list, driven by
  those picks, and move the top `k` documents to its end. `rerank` reverses the
  sorted list and scores the top `k` documents first and every other original
  document after them.
* **The model adapter layer** (`llmrankers/model_adapter.py`):
  * the factory's table from a model type to an adapter, with `create_adapter`,
    `register_adapter` and `get_supported_types`;
  * `batch_generate`;
  * the decoder-only adapter's `generate`: it wraps a lone prompt, pads on the left
    and cuts the prompt off every output row.

Files:

* `prelude.dfy`: Option/Result, and Python's `strip`, `upper`/`lower`, `list.index`,
  `reversed` and `[:k]`.
* `universal_ranker.dfy`: the `SearchResult` record.
* `setwise_labels.dfy`: `CHARACTERS`, answer parsing, prompts, and the perfect judge.
* `setwise_voting.dfy`: the voting rounds and the tally.
* `setwise_heap.dfy`: d-ary heap arithmetic and heap invariants.
* `setwise_results.dfy`: how `rerank` assembles its result list.
* `setwise_ranker.dfy`: the `Ranker` class, with `compare`, `heapify`, `heapSort`
  and `rerank` as methods over an `array`.
* `model_adapter.dfy`: the adapter factory, batching, and decoder-only generation.

The language model is a function parameter `judge: Prompt -> string`. The ordering
theorems use a ghost rank function `key` on passage texts, and a "perfect judge":
one whose answer on every well-formed prompt is exactly the label of a most relevant
passage. Under that assumption the model proves four things:

* heap sort leaves the largest `ExtractionCount(n, k)` documents at the end of the
  list, in ascending order;
* `rerank` therefore lists the top documents most relevant first, each ranking at
  least as high as every document left out;
* every voting round votes for a most relevant document;
* the plurality pick names a most relevant document.

For any judge, the model proves that:

* the list is only rearranged;
* when the original ids are distinct, `rerank` lists every one of them exactly once,
  scored -1, -2, …. A repeated id that is among the top ids is listed once per copy
  in the top and not again; copies of other ids are all kept, so the length can
  differ from the input's;
* `total_compare` grows by 1 for each plain compare and by `num_permutation` for each
  voting compare. Both charge the counter on entry, so a compare that then raises is
  counted too. `rerank` resets the counter, and afterwards it holds exactly the cost
  of the compares the sort made, with a bound on how many there were;
* each compare's pick is the parsed judge answer (plain), 'A' (voting without
  rounds), or a plurality pick over the votes of its ghost rounds (voting), and
  ChooseLargest selects the position that pick's label stands for;
* the exceptions are raised exactly when the source raises them:
  * `IndexError` or `ValueError` for a group of more than 23 documents;
  * `ZeroDivisionError` for `num_child == 0`;
  * `NotImplementedError` for any other sort method.

## Model

| member | source | states |
|---|---|---|
| Prelude.Strip | llmrankers/universal_setwise.py:83 | `str.strip()`: the result is the part of the input after its leading whitespace; everything cut from either end is whitespace; a non-empty result neither starts nor ends with whitespace |
| Prelude.IsSpace | llmrankers/universal_setwise.py:83 | the characters `str.strip()` removes: ASCII 9-13 and 28-32 and the Unicode space separators (definition; used by Strip) |
| Prelude.Upper | llmrankers/universal_setwise.py:88 | `str.upper()` on ASCII letters, character by character (definition; ParseIgnoresStrip and ParseFindsFirstLabel state its effect on parsing) |
| Prelude.Lower | llmrankers/model_adapter.py:241 | `str.lower()` on ASCII letters, character by character (definition; LowerIdempotent) |
| Prelude.IndexOf | llmrankers/universal_setwise.py:103 | `list.index`: None exactly when the element is absent (the ValueError); otherwise the first position that holds it |
| Prelude.Reverse | llmrankers/universal_setwise.py:143 | `list(reversed(s))`: same length, element t is element n-1-t of the input |
| Prelude.PrefixLen | llmrankers/universal_setwise.py:154 | `len(ranking[:k])`: min(k, n) for k >= 0, max(0, n + k) for negative k; never more than n |
| Prelude.LowerIdempotent | llmrankers/model_adapter.py:241 | lower-casing twice equals lower-casing once, so a registered key is found again under any spelling |
| SetwiseLabels.CharactersAreAToW | llmrankers/universal_setwise.py:32-33 | CHARACTERS is 23 distinct letters with A..W at positions 0..22; a character is a label exactly when it lies in 'A'..'W' |
| SetwiseLabels.LabelIndexOfLabel | llmrankers/universal_setwise.py:103 | `CHARACTERS.index` of the t-th label is t |
| SetwiseLabels.LabelPosition | llmrankers/universal_setwise.py:102-105 | the position heapify reads off a label: below 23; a label maps to its own position; a non-label maps to 0, as the caught ValueError sets it |
| SetwiseLabels.FirstLabel | llmrankers/universal_setwise.py:88-93 | the letter the scan returns is always one of CHARACTERS |
| SetwiseLabels.FirstLabelAt | llmrankers/universal_setwise.py:88-90 | the scan returns the label at p when no label comes before p |
| SetwiseLabels.FirstLabelNone | llmrankers/universal_setwise.py:92-93 | an answer without any label letter yields the fallback 'A' |
| SetwiseLabels.FirstLabelSkipsPrefix | llmrankers/universal_setwise.py:88-90 | text without labels in front of the answer does not change the pick |
| SetwiseLabels.FirstLabelIgnoresSuffix | llmrankers/universal_setwise.py:88-90 | text after an answer that already holds a label does not change the pick |
| SetwiseLabels.ParseOutput | llmrankers/universal_setwise.py:83-93 | the plain compare's reading of an answer: strip, upper-case, first label letter, else 'A' (definition; FirstLabel, ParseIgnoresStrip, ParseFindsFirstLabel and ParseFallsBackToA state its behaviour) |
| SetwiseLabels.ParseIgnoresStrip | llmrankers/universal_setwise.py:83-93 | stripping is irrelevant to the pick: parsing equals scanning the upper-cased raw answer for its first label |
| SetwiseLabels.ParseFindsFirstLabel | llmrankers/universal_setwise.py:83-90 | when position p of the answer upper-cases to a label and nothing before it does, the pick is that letter |
| SetwiseLabels.ParseFallsBackToA | llmrankers/universal_setwise.py:86-93 | an answer with no letter a..w in either case yields 'A' |
| SetwiseLabels.GroupPrompt | llmrankers/universal_setwise.py:74-79 | the plain prompt shows document t under the t-th letter; for a non-empty group it is well-formed (distinct labels, one per passage) |
| SetwiseLabels.StubIsPerfect | llmrankers/universal_setwise.py:82 | a perfect judge exists: the judge that answers the label of the first most relevant passage |
| SetwiseLabels.PerfectJudgeParsesBest | llmrankers/universal_setwise.py:82-90 | under a perfect judge, the parsed answer for a group is the label of a most relevant document of it |
| SetwiseVoting.Identity | llmrankers/universal_setwise.py:208-209 | `random.sample` of m items can be drawn for every m: the identity is a permutation of 0..m-1 |
| SetwiseVoting.RoundVote | llmrankers/universal_setwise.py:219-227 | a round's vote, when there is one, is a position in the original group |
| SetwiseVoting.RoundVoteElects | llmrankers/universal_setwise.py:219-225 | an answer that cleans to exactly the label shown at t votes for the first group document equal to the one shown at t; with distinct documents, that one itself |
| SetwiseVoting.RoundVoteDrops | llmrankers/universal_setwise.py:222-227 | an answer that is not exactly one of the group's labels casts no vote (the caught ValueError) |
| SetwiseVoting.RoundPrompt | llmrankers/universal_setwise.py:208-217 | one round's prompt: the permuted passages under the permuted labels (definition; RoundPromptIsValid) |
| SetwiseVoting.BareLabelVote | llmrankers/universal_setwise.py:219-225 | the bare label shown at t votes for a document equal to the one shown at t |
| SetwiseVoting.Candidates | llmrankers/universal_setwise.py:205-227 | at most one vote per round, each a position in the group |
| SetwiseVoting.CandidatesAppend | llmrankers/universal_setwise.py:206-225 | one more round appends its vote, if it casts one, at the end |
| SetwiseVoting.MaxCountOver | llmrankers/universal_setwise.py:232 | `max(candidate_counts.values())`: no count exceeds it, and some candidate reaches it |
| SetwiseVoting.MaxCount | llmrankers/universal_setwise.py:232 | `max(Counter(c).values())`, 0 without votes (definition; MaxCountOver) |
| SetwiseVoting.Winners | llmrankers/universal_setwise.py:231-233 | the positions whose vote count equals the maximum (definition; WinnersArePluralities, WinnersNonEmpty, MajorityWins) |
| SetwiseVoting.TallyPick | llmrankers/universal_setwise.py:229-237 | a pick `random.choice` may return: 'A' without votes, otherwise the label of a winner (definition; Tally and PerfectVoteIsBest) |
| SetwiseVoting.WinnersArePluralities | llmrankers/universal_setwise.py:231-233 | x is a winner exactly when it was voted for and no position has more votes |
| SetwiseVoting.WinnersNonEmpty | llmrankers/universal_setwise.py:230-234 | with at least one vote, `random.choice` has a winner to choose |
| SetwiseVoting.MajorityWins | llmrankers/universal_setwise.py:231-234 | a position with more than half the votes is the only winner |
| SetwiseVoting.RoundPromptIsValid | llmrankers/universal_setwise.py:208-217 | a round's prompt is well-formed: one distinct label of A..W per shown passage |
| SetwiseVoting.BareBestLabelElectsBest | llmrankers/universal_setwise.py:219-225 | answering the bare label of a most relevant shown passage votes for a most relevant group document |
| SetwiseVoting.BestAnswerElectsBest | llmrankers/universal_setwise.py:219-225 | an answer naming a most relevant shown passage votes for a most relevant group document |
| SetwiseVoting.PerfectRoundElectsBest | llmrankers/universal_setwise.py:206-225 | under a perfect judge every round votes, and for a most relevant document |
| SetwiseVoting.PerfectCandidatesAreBest | llmrankers/universal_setwise.py:205-227 | under a perfect judge there is one vote per round, each for a most relevant document |
| SetwiseVoting.PerfectVoteIsBest | llmrankers/universal_setwise.py:229-235 | under a perfect judge, over at least one round, the plurality label names a most relevant document |
| SetwiseHeap.Parent | llmrankers/universal_setwise.py:97-99 | the parent (j-1)/d of a non-root position lies before it |
| SetwiseHeap.MulIsProduct | llmrankers/universal_setwise.py:97 | the counted-out `Mul(d, i)` is `d * i` |
| SetwiseHeap.QuotIsDiv | llmrankers/universal_setwise.py:122 | the counted-out `Quot(x, d)` is `x // d` |
| SetwiseHeap.ParentOfChild | llmrankers/universal_setwise.py:97-99 | i is the parent of j exactly when j lies in i's child range d*i+1 .. d*i+d |
| SetwiseHeap.Swap | llmrankers/universal_setwise.py:113 | exchanging i and j: both entries trade places and nothing else changes |
| SetwiseHeap.SwapInWindow | llmrankers/universal_setwise.py:113 | a swap inside the window a[..n] keeps the window's contents and everything after it |
| SetwiseHeap.RootIsMax | llmrankers/universal_setwise.py:126-127 | the root of a heap ranks at least as high as every document in the window |
| SetwiseHeap.HeapBelowLastParent | llmrankers/universal_setwise.py:122 | before the build loop, the region from n // d + 1 on is trivially a heap |
| SetwiseHeap.SiftSettles | llmrankers/universal_setwise.py:112 | a hole that already ranks at least as high as its children closes the heap |
| SetwiseHeap.SiftMovesDown | llmrankers/universal_setwise.py:112-114 | swapping the hole with its best child moves the hole to that child, ready for the recursive heapify |
| SetwiseHeap.LeafSettles | llmrankers/universal_setwise.py:97 | a hole with no children in the window closes the heap by itself |
| SetwiseHeap.Group | llmrankers/universal_setwise.py:98 | the compared group is arr[i] followed by the children of i inside the window: 2 to d+1 documents |
| SetwiseHeap.GroupSize | llmrankers/universal_setwise.py:98 | the group holds i and min(d, n - d*i - 1) children |
| SetwiseHeap.GroupIndex | llmrankers/universal_setwise.py:99-110 | `inds[b]`: i for b = 0, the b-th child d*i + b otherwise (definition; GroupIndexInWindow) |
| SetwiseHeap.PickPosition | llmrankers/universal_setwise.py:102-111 | the position heapify settles on for label position b: the group position b stands for while b is inside the group, and i past its end (the caught IndexError); always i or a child of i inside the window |
| SetwiseHeap.BestOfGroup | llmrankers/universal_setwise.py:101-111 | when the label names a most relevant group document, the chosen position ranks at least as high as i and every child of i |
| SetwiseHeap.GroupIndexInWindow | llmrankers/universal_setwise.py:98-99 | `inds[b]` is a window position holding the document shown at b: i or one of its children |
| SetwiseHeap.ChildInGroup | llmrankers/universal_setwise.py:98 | every child of i inside the window is shown in i's group |
| SetwiseHeap.BuildStepReady | llmrankers/universal_setwise.py:122-123 | each build step sifts from a position below which the array is already a heap |
| SetwiseHeap.ExtractStep | llmrankers/universal_setwise.py:126-131 | moving the root behind the window extends the sorted tail by one slot and leaves the shrunk window ready for a sift from the root |
| SetwiseHeap.SortedFromPrefixShuffle | llmrankers/universal_setwise.py:131 | rearranging only the window keeps the sorted tail sorted |
| SetwiseHeap.ExtractionCount | llmrankers/universal_setwise.py:126-130 | how many documents the extraction loop moves: none for n <= 1; k when 1 <= k < n; otherwise n - 1 (a k <= 0 never breaks) |
| SetwiseResults.Scored | llmrankers/universal_setwise.py:154-162 | the running rank scores the t-th listed id -(first + t), without text |
| SetwiseResults.Fresh | llmrankers/universal_setwise.py:159-160 | the ids of the original list not seen before are at most as many as its documents |
| SetwiseResults.FreshMembers | llmrankers/universal_setwise.py:159-161 | an id is appended exactly when it occurs in the original list and is not a top id |
| SetwiseResults.FreshDistinct | llmrankers/universal_setwise.py:159-161 | from an original list with distinct ids, the appended ids are distinct |
| SetwiseResults.Assemble | llmrankers/universal_setwise.py:150-164 | the top ids, then the original ids outside them, scored -1, -2, … (definition; AssembleLayout and AssembleIsPermutation) |
| SetwiseResults.AssembleLayout | llmrankers/universal_setwise.py:150-164 | the result starts with the top ids in order, continues with original ids that are not top ids, and scores position t as -(t+1), strictly falling, all without text |
| SetwiseResults.AssembleIsPermutation | llmrankers/universal_setwise.py:150-164 | with distinct ids and top ids drawn from the original, the result lists every original id exactly once |
| SetwiseResults.ListTop | llmrankers/universal_setwise.py:154-157 | the first loop produces the scored top ids and the set of exactly those ids |
| SetwiseResults.ListRest | llmrankers/universal_setwise.py:159-162 | the second loop appends the scored ids of the original list that are not top ids, continuing the rank |
| SetwiseResults.DistinctIdsSurviveShuffle | llmrankers/universal_setwise.py:142 | a rearrangement of a list with distinct ids has distinct ids |
| SetwiseResults.RerankListsEveryIdOnce | llmrankers/universal_setwise.py:138-164 | for any rearrangement the sort made, when the original ids are distinct, rerank's result lists every original id exactly once |
| SetwiseResults.SortedTailIsTop | llmrankers/universal_setwise.py:143-154 | a sorted tail of ExtractionCount(n, k) slots makes the first len(ranking[:k]) documents of the reversed list the top, most relevant first |
| UniversalSetwise.DrawRound | llmrankers/universal_setwise.py:208-209 | one voting round's random draws: a permutation of the documents and of their labels |
| UniversalSetwise.Tally | llmrankers/universal_setwise.py:229-237 | the voting result: 'A' without votes, otherwise the label of a position with the most votes |
| UniversalSetwise.SwapEntries | llmrankers/universal_setwise.py:113 | the array after the tuple swap is the swapped sequence |
| UniversalSetwise.GroupLists | llmrankers/universal_setwise.py:98-99 | `docs` is the compared group and `inds[t]` the window position of its t-th document |
| UniversalSetwise.Ranker.constructor | llmrankers/universal_setwise.py:61-63 | the configuration is stored and total_compare starts at 0 |
| UniversalSetwise.Ranker.SpentIsProduct | llmrankers/universal_setwise.py:203 | the compare counter grows by the per-compare cost times the number of compares |
| UniversalSetwise.Ranker.SpentAdd | llmrankers/universal_setwise.py:72 | counter increments of two stretches of compares add up |
| UniversalSetwise.Ranker.AnswerOf | llmrankers/universal_setwise.py:197-237 | what a compare answers on a group: the parsed judge answer for the plain comparator, 'A' for voting without rounds, else a TallyPick over the votes of one RoundFor round per permutation (definition; Compare and ChooseLargest guarantee it) |
| UniversalSetwise.Ranker.PlainCompare | llmrankers/universal_setwise.py:67-93 | one model call; IndexError for more than 23 documents; otherwise the parsed answer to the labelled prompt |
| UniversalSetwise.Ranker.VotingCompare | llmrankers/universal_setwise.py:197-237 | adds num_permutation to the counter; ValueError exactly when some round runs and more than 23 documents are labelled; 'A' without rounds; otherwise a plurality pick over one vote per parsed round |
| UniversalSetwise.Ranker.Compare | llmrankers/universal_setwise.py:197-200 | dispatches as the configured ranker does; adds CompareCost to the counter, raising or not; fails exactly when the judge is consulted on more than 23 documents; the pick is a label, and it is the compare's answer (AnswerOf): the parsed judge answer for the plain comparator, 'A' for voting without rounds, a plurality pick over the returned rounds' votes otherwise; with a perfect judge it names a most relevant document |
| UniversalSetwise.Ranker.ChooseLargest | llmrankers/universal_setwise.py:97-111 | one compare of i's group, charged to the counter; pick is that compare's answer on the group (AnswerOf), and the position settled on is PickPosition of pick's label index: the label's position in the group, or i for a non-label or a label past the group; under a perfect judge it ranks at least as high as i and all of i's children |
| UniversalSetwise.Ranker.Heapify | llmrankers/universal_setwise.py:95-114 | only rearranges the window; a position without children changes nothing and costs nothing; otherwise 1 to n - i compares, charged as Spent(compares); fails, with compare's error, exactly when the judge is consulted, numChild >= 23 and i's group is cut short by the alphabet (d*i + 23 < n), since no group further down the sift is larger; under a perfect judge a ready hole sifts into a heap |
| UniversalSetwise.Ranker.SwapDown | llmrankers/universal_setwise.py:112-114 | the swap with the chosen child and the recursive heapify keep the window's contents, make at most n - largest further compares, fail only when i's own group is oversized and, under a perfect judge, close the heap |
| UniversalSetwise.Ranker.BuildStep | llmrankers/universal_setwise.py:123 | one build step keeps the contents, makes at most n compares, fails exactly when the judge is consulted, numChild >= 23 and d*i + 23 < n, and extends the heap region down to i |
| UniversalSetwise.Ranker.BuildHeap | llmrankers/universal_setwise.py:121-123 | the build loop keeps the contents, makes at most n * (n // d + 1) compares, fails exactly for groups of more than 23 labelled documents, and under a perfect judge leaves a heap |
| UniversalSetwise.Ranker.MoveRoot | llmrankers/universal_setwise.py:127 | the root and slot i trade places, nothing else moves, and under a perfect judge the sorted tail grows by one |
| UniversalSetwise.Ranker.SiftRoot | llmrankers/universal_setwise.py:131 | the sift of the shrunk window makes at most i compares, restores the heap and keeps the sorted tail |
| UniversalSetwise.Ranker.ExtractTop | llmrankers/universal_setwise.py:125-131 | the extraction loop moves ExtractionCount(n, k) documents with at most n * ExtractionCount(n, k) compares and, under a perfect judge, leaves them sorted at the end |
| UniversalSetwise.Ranker.HeapSort | llmrankers/universal_setwise.py:116-131 | only rearranges the list; ZeroDivisionError exactly when num_child is 0 (nothing moved, no compare), the compare error exactly for oversized groups; the counter grows by Spent(compares) with compares bounded by the two phases' bounds; under a perfect judge the last ExtractionCount(n, k) slots hold the largest documents in ascending order |
| UniversalSetwise.Ranker.Rerank | llmrankers/universal_setwise.py:133-164 | NotImplementedError with the source's messages for any method other than "heapsort" (counter reset to 0); otherwise the counter is reset and ends at Spent(compares) for the sort's bounded number of compares, heap sort's errors, and on success the assembled list: every original id exactly once (with distinct ids) and, under a perfect judge, the top documents most relevant first |
| ModelAdapter.DefaultTableWellFormed | llmrankers/model_adapter.py:186-201 | the default table has 14 distinct lower-case keys, listed in order |
| ModelAdapter.DefaultTable | llmrankers/model_adapter.py:186-201 | the factory's default table: the 14 listed types, 't5' to the T5 adapter and the rest to the decoder-only one (definition; DefaultTableWellFormed, DefaultFamilies) |
| ModelAdapter.DefaultFamilies | llmrankers/model_adapter.py:186-201 | 't5' maps to the T5 adapter and every other default type to the decoder-only adapter |
| ModelAdapter.LookupKeyIsLower | llmrankers/model_adapter.py:223-229 | the lookup key is always lower case |
| ModelAdapter.DeclaredType | llmrankers/model_adapter.py:223 | the config's model_type lower-cased, 'unknown' without the attribute (definition) |
| ModelAdapter.LookupKey | llmrankers/model_adapter.py:223-229 | the forced type lower-cased when given and non-empty, otherwise the declared type (definition; ForcedTypeWins, EmptyForcedTypeDetects, ForcedTypeIgnoresCase) |
| ModelAdapter.Select | llmrankers/model_adapter.py:223-234 | the table's entry for the lookup key, or the decoder-only adapter with the fallback flag (definition; FallbackIsCausalLm, DefaultChoices, UnlistedTypesFallBack) |
| ModelAdapter.ForcedTypeWins | llmrankers/model_adapter.py:226-227 | a non-empty forced adapter type decides alone, whatever the model declares |
| ModelAdapter.EmptyForcedTypeDetects | llmrankers/model_adapter.py:226-229 | an empty forced type is falsy and auto-detects as if none were given |
| ModelAdapter.ForcedTypeIgnoresCase | llmrankers/model_adapter.py:227 | the forced type is looked up case-insensitively |
| ModelAdapter.FallbackIsCausalLm | llmrankers/model_adapter.py:231-234 | a key missing from the table falls back to the decoder-only adapter with a warning; a present key gives its entry |
| ModelAdapter.DefaultChoices | llmrankers/model_adapter.py:186-229 | with the default table, 't5' (in any case) picks T5 and every other listed type picks the decoder-only adapter without a warning |
| ModelAdapter.DefaultInitials | llmrankers/model_adapter.py:186-201 | no default key starts with 'c' or 'u', so "causal_lm" and "unknown" are absent |
| ModelAdapter.UnlistedTypesFallBack | llmrankers/model_adapter.py:223-234 | forcing "causal_lm", or a config without model_type, reaches the decoder-only adapter only through the fallback warning |
| ModelAdapter.RegisterThenSelect | llmrankers/model_adapter.py:239-241 | after registering c, a lookup of that key yields c and every other lookup is unchanged |
| ModelAdapter.SupportedTypesAreReachable | llmrankers/model_adapter.py:243-246 | every supported type is auto-detected, and can be forced, without a warning |
| ModelAdapter.ModelAdapterFactory.constructor | llmrankers/model_adapter.py:186-201 | the factory starts with the default table, well-formed |
| ModelAdapter.ModelAdapterFactory.CreateAdapter | llmrankers/model_adapter.py:203-236 | warns exactly when the lookup key is not a supported type and then gives the decoder-only adapter; otherwise the table's entry for the key |
| ModelAdapter.ModelAdapterFactory.RegisterAdapter | llmrankers/model_adapter.py:238-241 | stores the adapter under the lower-cased type; a new type joins the end of the listing; the table stays well-formed |
| ModelAdapter.ModelAdapterFactory.GetSupportedTypes | llmrankers/model_adapter.py:243-246 | the table's keys, each exactly once |
| ModelAdapter.Chunks | llmrankers/model_adapter.py:46-47 | the slices `range(0, len, batch_size)` cuts: each holds 1 to batch_size prompts, all full but the last |
| ModelAdapter.ChunksConcat | llmrankers/model_adapter.py:46-47 | the slices put back together are the prompts |
| ModelAdapter.Batched | llmrankers/model_adapter.py:43-49 | generate on the first batch_size prompts, then on the rest, answers concatenated (definition; BatchedOverChunks, BatchedLength, BatchSizeIrrelevant) |
| ModelAdapter.BatchedOverChunks | llmrankers/model_adapter.py:45-49 | batched generation is the concatenation of generate over the slices, in order |
| ModelAdapter.BatchedLength | llmrankers/model_adapter.py:43-49 | when generate answers each batch with one output per prompt, there is one output per prompt overall |
| ModelAdapter.BatchSizeIrrelevant | llmrankers/model_adapter.py:43-49 | when generate answers each prompt on its own, the output is the per-prompt answers, whatever the batch size |
| ModelAdapter.BatchGenerate | llmrankers/model_adapter.py:43-49 | batch size 0 raises (range's ValueError); a negative size gives no output; otherwise the batched generation |
| ModelAdapter.AsBatch | llmrankers/model_adapter.py:145-146 | a lone prompt becomes a one-element batch; a batch is kept |
| ModelAdapter.Width | llmrankers/model_adapter.py:160 | the padded width is the length of the longest row (0 for no rows) |
| ModelAdapter.PadLeft | llmrankers/model_adapter.py:160 | left padding: every row gets pad tokens in front up to the common width, and ends with its own tokens |
| ModelAdapter.TokenRows | llmrankers/model_adapter.py:160 | one token row per prompt, in order |
| ModelAdapter.StripPrompt | llmrankers/model_adapter.py:171 | `output_ids[:, w:]`: each row loses its first w tokens (all of a shorter row) |
| ModelAdapter.StripLeavesContinuation | llmrankers/model_adapter.py:170-171 | from an output row that repeats its input row, cutting the input width leaves exactly what was generated after it |
| ModelAdapter.CausalGenerate | llmrankers/model_adapter.py:142-174 | the decoder-only generate: wrap, tokenize, pad left, run the model, strip the padded width, decode (definition; CausalGenerateAnswersEachPrompt) |
| ModelAdapter.CausalGenerateAnswersEachPrompt | llmrankers/model_adapter.py:142-174 | with a model that echoes its input, generate returns one output per prompt (a lone prompt included), each the decoding of exactly the tokens generated after that prompt's padded row |

## Left out

- Prompt wording: a prompt is its query, its labels and its passage texts. The model
  compares texts only through the judge and `key`, so the surrounding English is not
  modelled.
- The language model, the tokenizer and decoding are function parameters. Loading
  models and configs (`from_pretrained`), devices and dtypes, `get_logits`,
  `max_new_tokens` and other keyword arguments, and the caches are not modelled.
  `T5Adapter.generate` is not modelled, because it only calls the library.
- Decoder-only `generate` is modelled with the chat template turned off. Applying a
  template is a call into the tokenizer library.
- Randomness (`random.sample`, `random.choice`, the fixed seed) is nondeterministic
  choice: every permutation and every tied winner is allowed.
- `print` warnings are not modelled. The fallback warning of `create_adapter` is the
  `fellBack` flag of the returned `Choice`.
- `create_adapter` returns the kind of adapter it would construct, and
  `register_adapter` takes an adapter kind rather than a class object.
- `universal_ranker.py:35` documents `'causal_lm'` as a forced adapter type, but the
  table has no such key. The model follows the code: such a call reaches the
  decoder-only adapter only through the fallback (`UnlistedTypesFallBack`).
- `upper()` and `lower()` are `Upper` and `Lower`, which change only the ASCII
  letters. Python's versions also change non-ASCII letters. This matters only for
  answers in which such a letter upper-cases to one of A..W.
- Scores are integers, because `rerank` only writes `-rank`. `num_child` is a natural
  number; a negative `num_child` is not modelled.
- Multiplication and floor division are the recursive `Mul`/`Quot`, whose equality
  with `*` and `//` is proved (`MulIsProduct`, `QuotIsDiv`).
- `total_compare` is modelled as the `totalCompare` field.
  - The heap methods state its growth through a ghost count of compares (`Spent`).
  - `total_completion_tokens` and `total_prompt_tokens` are never updated in the core,
    so they are left out.
- The bubblesort method is implemented only as its `NotImplementedError`, which is all
  the source does.
- `truncate`, the examples, and the defence configuration are not part of this model.
- UniversalSetwise.Ranker.Heapify: the ordering of the result is proved only under a
  perfect judge. For an arbitrary judge the contract states that the window is
  rearranged, when the errors occur, and the counter; it does not state which
  rearrangement. For each single step, ChooseLargest states for any judge that its
  pick is the compare's answer on the group and which position that pick selects;
  Heapify does not carry that tie into its own contract.
- The compare bounds of the heap methods are linear per sift (at most n - i compares
  for a sift from i), not the logarithmic depth of the heap.
- UniversalSetwise.Ranker.VotingCompare: the contract states the pick up to the
  random draws. The draws are returned as ghost `rounds`, so the pick is tied to the
  votes those rounds produce.
