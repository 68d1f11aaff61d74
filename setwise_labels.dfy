/** Passage labels, the prompt a comparison sends to the judge model, and how the
    judge's free-text answer is read back as a label. */
module SetwiseLabels {
  import opened Prelude
  import opened UniversalRanker

  /** The label alphabet: 23 letters, so a comparison group holds at most 23 passages. */
  const CHARACTERS: seq<char> := Letters(23)

  /** The first n capital letters, in order. */
  function Letters(n: nat): (s: seq<char>)
    requires n <= 26
    ensures |s| == n && forall t :: 0 <= t < n ==> s[t] == ('A' as int + t) as char
  {
    seq(n, t requires 0 <= t < n => ('A' as int + t) as char)
  }

  lemma CharactersAreAToW()
    ensures |CHARACTERS| == 23 && Distinct(CHARACTERS)
    ensures forall t :: 0 <= t < 23 ==> CHARACTERS[t] == ('A' as int + t) as char
    ensures forall c :: c in CHARACTERS <==> 'A' <= c <= 'W'
  {
    assert forall t :: 0 <= t < 23 ==> CHARACTERS[t] == ('A' as int + t) as char;
    forall c | 'A' <= c <= 'W' ensures c in CHARACTERS {
      assert CHARACTERS[c as int - 'A' as int] == c;
    }
  }

  /** CHARACTERS.index(c); None where Python raises ValueError. */
  function LabelIndex(c: char): Option<nat> { IndexOf(CHARACTERS, c) }

  /** The position heapify reads off a label: CHARACTERS.index(c), or 0 where it
      catches the ValueError. */
  function LabelPosition(c: char): (b: nat)
    ensures b < |CHARACTERS|
    ensures c in CHARACTERS ==> CHARACTERS[b] == c
    ensures c !in CHARACTERS ==> b == 0
  {
    CharactersAreAToW();
    match LabelIndex(c)
    case Some(b) => b
    case None => 0
  }

  lemma LabelIndexOfLabel(t: nat)
    requires t < |CHARACTERS|
    ensures LabelIndex(CHARACTERS[t]) == Some(t)
  {
    CharactersAreAToW();
  }

  // ---------------------------------------------------------------------------
  // Reading a label back from the judge's answer

  /** The first character of s that is a label, or 'A' when s has none. */
  function FirstLabel(s: string): (c: char)
    ensures c in CHARACTERS
  {
    if s == [] then assert CHARACTERS[0] == 'A'; 'A'
    else if s[0] in CHARACTERS then s[0]
    else FirstLabel(s[1..])
  }

  /** The label the plain comparator reports for a raw answer: the answer is
      stripped and upper-cased, then its first label character wins ('A' if none). */
  function ParseOutput(output: string): char {
    FirstLabel(Upper(Strip(output)))
  }

  lemma {:induction false} FirstLabelAt(s: string, p: nat)
    requires p < |s| && s[p] in CHARACTERS
    requires forall i :: 0 <= i < p ==> s[i] !in CHARACTERS
    ensures FirstLabel(s) == s[p]
  {
    if p > 0 {
      FirstLabelAt(s[1..], p - 1);
    }
  }

  lemma {:induction false} FirstLabelNone(s: string)
    requires forall i :: 0 <= i < |s| ==> s[i] !in CHARACTERS
    ensures FirstLabel(s) == 'A'
  {
    if s != [] {
      FirstLabelNone(s[1..]);
    }
  }

  /** Whitespace carries no label, so leading blanks are skipped ... */
  lemma {:induction false} FirstLabelSkipsPrefix(a: string, b: string)
    requires forall i :: 0 <= i < |a| ==> a[i] !in CHARACTERS
    ensures FirstLabel(a + b) == FirstLabel(b)
  {
    if a == [] {
      assert a + b == b;
    } else {
      assert (a + b)[1..] == a[1..] + b;
      FirstLabelSkipsPrefix(a[1..], b);
    }
  }

  /** ... and trailing blanks never change the first label either. */
  lemma {:induction false} FirstLabelIgnoresSuffix(a: string, b: string)
    requires forall i :: 0 <= i < |b| ==> b[i] !in CHARACTERS
    ensures FirstLabel(a + b) == FirstLabel(a)
  {
    if a == [] {
      assert a + b == b;
      FirstLabelNone(b);
    } else if a[0] !in CHARACTERS {
      assert (a + b)[1..] == a[1..] + b;
      FirstLabelIgnoresSuffix(a[1..], b);
    }
  }

  lemma SpaceIsNoLabel(c: char)
    requires IsSpace(c)
    ensures UpperChar(c) == c && c !in CHARACTERS
  {
    CharactersAreAToW();
  }

  /** Upper-casing works character by character, so it distributes over concatenation. */
  lemma UpperAppend(a: string, b: string)
    ensures Upper(a + b) == Upper(a) + Upper(b)
  {
  }

  /** Blanks upper-case to blanks, none of them a label. */
  lemma BlanksHaveNoLabel(a: string)
    requires forall i :: 0 <= i < |a| ==> IsSpace(a[i])
    ensures forall i :: 0 <= i < |Upper(a)| ==> Upper(a)[i] !in CHARACTERS
  {
    forall i | 0 <= i < |a| ensures Upper(a)[i] !in CHARACTERS {
      SpaceIsNoLabel(a[i]);
    }
  }

  /** str.strip() cuts the answer into blanks, the stripped text and blanks. */
  lemma StripSplits(s: string) returns (pre: string, suf: string)
    ensures s == pre + Strip(s) + suf
    ensures forall i :: 0 <= i < |pre| ==> IsSpace(pre[i])
    ensures forall i :: 0 <= i < |suf| ==> IsSpace(suf[i])
  {
    var lo := LeadingBlanks(s);
    var hi := lo + |Strip(s)|;
    pre, suf := s[..lo], s[hi..];
    assert s == s[..lo] + s[lo..hi] + s[hi..];
  }

  /** Stripping never changes which label is read: the parse equals the first label
      of the whole upper-cased answer. */
  lemma ParseIgnoresStrip(output: string)
    ensures ParseOutput(output) == FirstLabel(Upper(output))
  {
    var r := Strip(output);
    var pre, suf := StripSplits(output);
    UpperAppend(pre + r, suf);
    UpperAppend(pre, r);
    BlanksHaveNoLabel(pre);
    BlanksHaveNoLabel(suf);
    var up, ur, us := Upper(pre), Upper(r), Upper(suf);
    assert Upper(output) == up + (ur + us);
    FirstLabelSkipsPrefix(up, ur + us);
    FirstLabelIgnoresSuffix(ur, us);
  }

  /** The plain comparator reports the first character of the answer that upper-cases
      to a letter A-W, whatever surrounds it, even a letter beyond the group's size. */
  lemma ParseFindsFirstLabel(output: string, p: nat)
    requires p < |output| && UpperChar(output[p]) in CHARACTERS
    requires forall i :: 0 <= i < p ==> UpperChar(output[i]) !in CHARACTERS
    ensures ParseOutput(output) == UpperChar(output[p])
  {
    ParseIgnoresStrip(output);
    FirstLabelAt(Upper(output), p);
  }

  /** An answer with no letter A-W (the empty answer included) is read as 'A'. */
  lemma ParseFallsBackToA(output: string)
    requires forall i :: 0 <= i < |output| ==> UpperChar(output[i]) !in CHARACTERS
    ensures ParseOutput(output) == 'A'
  {
    ParseIgnoresStrip(output);
    FirstLabelNone(Upper(output));
  }

  // ---------------------------------------------------------------------------
  // Prompts and the judge

  /** What one comparison shows the judge: the query and each passage under its label.
      The wording of the prompt around them is not modelled. */
  datatype Prompt = Prompt(query: string, labels: seq<char>, passages: seq<Option<string>>)

  /** A prompt as a comparison builds it: one distinct label per passage, at least one passage. */
  predicate ValidPrompt(p: Prompt) {
    |p.labels| == |p.passages| >= 1 && Distinct(p.labels)
    && forall t :: 0 <= t < |p.labels| ==> p.labels[t] in CHARACTERS
  }

  /** The plain comparator's prompt: document t is shown under the t-th letter. */
  function GroupPrompt(query: string, docs: seq<SearchResult>): (p: Prompt)
    requires |docs| <= |CHARACTERS|
    ensures 1 <= |docs| ==> ValidPrompt(p)
  {
    CharactersAreAToW();
    Prompt(query, CHARACTERS[..|docs|], Texts(docs))
  }

  /** A rank function on passage texts, used only to state what a perfect judge does. */
  type Relevance = Option<string> -> int

  /** Passage j is a most relevant passage of the list. */
  ghost predicate IsBestAt(passages: seq<Option<string>>, key: Relevance, j: nat) {
    j < |passages| && forall t :: 0 <= t < |passages| ==> key(passages[t]) <= key(passages[j])
  }

  /** Document j is a most relevant document of the group. */
  ghost predicate IsBestDoc(docs: seq<SearchResult>, key: Relevance, j: nat) {
    j < |docs| && forall u :: 0 <= u < |docs| ==> key(docs[u].text) <= key(docs[j].text)
  }

  /** A most relevant passage is the passage of a most relevant document. */
  lemma BestTextIsBestDoc(docs: seq<SearchResult>, key: Relevance, j: nat)
    requires IsBestAt(Texts(docs), key, j)
    ensures IsBestDoc(docs, key, j)
  {
    forall u | 0 <= u < |docs| ensures key(docs[u].text) <= key(docs[j].text) {
      assert Texts(docs)[u] == docs[u].text;
    }
  }

  /** The answer is exactly one label of the prompt, and it names a most relevant passage. */
  ghost predicate AnswersBest(p: Prompt, key: Relevance, answer: string) {
    |answer| == 1 && answer[0] in p.labels
    && IsBestAt(p.passages, key, IndexOf(p.labels, answer[0]).value)
  }

  /** A judge that, on every well-formed prompt, answers the bare label of a most
      relevant passage under key. */
  ghost predicate PerfectJudge(judge: Prompt -> string, key: Relevance) {
    forall p :: ValidPrompt(p) ==> AnswersBest(p, key, judge(p))
  }

  /** Position of the first most relevant passage. */
  function ArgBest(passages: seq<Option<string>>, key: Relevance): (j: nat)
    requires |passages| >= 1
    ensures j < |passages| && forall t :: 0 <= t < |passages| ==> key(passages[t]) <= key(passages[j])
  {
    if |passages| == 1 then 0
    else
      var j := ArgBest(passages[1..], key);
      if key(passages[0]) >= key(passages[j + 1]) then 0 else j + 1
  }

  /** A stub judge that always names the label of the most relevant passage. */
  function StubAnswer(key: Relevance, p: Prompt): string {
    if ValidPrompt(p) then [p.labels[ArgBest(p.passages, key)]] else ""
  }

  /** The perfect-judge hypothesis used by the ordering theorems can be met. */
  lemma StubIsPerfect(key: Relevance)
    ensures PerfectJudge((p: Prompt) => StubAnswer(key, p), key)
  {
    forall p | ValidPrompt(p)
      ensures AnswersBest(p, key, StubAnswer(key, p))
    {
      var j := ArgBest(p.passages, key);
      var i := IndexOf(p.labels, p.labels[j]);
      assert i.Some? && i.value == j;
    }
  }

  /** Under a perfect judge the plain comparator reports the label of a most
      relevant document of the group. */
  lemma PerfectJudgeParsesBest(judge: Prompt -> string, key: Relevance, query: string,
                               docs: seq<SearchResult>)
    requires PerfectJudge(judge, key) && 1 <= |docs| <= |CHARACTERS|
    ensures var c := ParseOutput(judge(GroupPrompt(query, docs)));
            LabelIndex(c).Some? && IsBestDoc(docs, key, LabelIndex(c).value)
  {
    var p := GroupPrompt(query, docs);
    var answer := judge(p);
    assert AnswersBest(p, key, answer);
    var j := IndexOf(p.labels, answer[0]).value;
    assert answer[0] == CHARACTERS[j];
    CharactersAreAToW();
    ParseFindsFirstLabel(answer, 0);
    LabelIndexOfLabel(j);
    BestTextIsBestDoc(docs, key, j);
  }
}
