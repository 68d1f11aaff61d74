/** The backend layer under the rankers: the factory that picks an inference adapter
    for a model family from a table, batched generation, and how the decoder-only
    adapter cuts the prompt off what the model returns. Adapters are tags here, the
    model itself an uninterpreted function. */
module ModelAdapter {
  import opened Prelude

  /** The adapter a model is served with: the encoder-decoder adapter, the decoder-only
      adapter, or an adapter class some caller registered (known only by its name). */
  datatype AdapterKind = T5 | CausalLm | Registered(name: string)

  /** What create_adapter settles on, and whether it warned that the type is not in
      the table and fell back to the decoder-only adapter. */
  datatype Choice = Choice(adapter: AdapterKind, fellBack: bool)

  // ---------------------------------------------------------------------------
  // The adapter table

  /** The families the table knows out of the box, in the order the table lists them. */
  const DefaultTypes: seq<string> :=
    ["t5", "llama", "gpt2", "gpt_neox", "mistral", "phi", "qwen", "baichuan", "bloom",
     "falcon", "mpt", "stablelm", "opt", "gpt_bigcode"]

  function DefaultKind(t: string): AdapterKind {
    if t == "t5" then T5 else CausalLm
  }

  /** The out-of-the-box table: every listed family but 't5' is served decoder-only. */
  function DefaultTable(): map<string, AdapterKind> {
    map t | t in DefaultTypes :: DefaultKind(t)
  }

  /** No upper-case ASCII letter in s. */
  predicate IsLower(s: string) {
    forall i :: 0 <= i < |s| ==> !('A' <= s[i] <= 'Z')
  }

  lemma LowerKeepsLower(s: string)
    requires IsLower(s)
    ensures Lower(s) == s
  {
  }

  /** A table as the factory keeps it: its keys listed once each in insertion order
      (what get_supported_types returns), each key already lower-cased. */
  ghost predicate WellFormed(types: seq<string>, table: map<string, AdapterKind>) {
    Distinct(types)
    && (forall t :: t in table <==> t in types)
    && (forall t :: t in table ==> Lower(t) == t)
  }

  lemma DefaultTableWellFormed()
    ensures WellFormed(DefaultTypes, DefaultTable())
    ensures |DefaultTypes| == 14 && |DefaultTable()| == 14
  {
    forall t | t in DefaultTypes ensures Lower(t) == t {
      LowerKeepsLower(t);
    }
    DistinctSetSize(DefaultTypes);
    assert DefaultTable().Keys == Members(DefaultTypes);
  }

  /** Out of the box 't5' is served by the encoder-decoder adapter and each of the
      other thirteen families by the decoder-only adapter. */
  lemma DefaultFamilies()
    ensures DefaultTable()["t5"] == T5
    ensures forall t :: t in DefaultTypes && t != "t5" ==> t in DefaultTable() && DefaultTable()[t] == CausalLm
    ensures forall t :: t in DefaultTypes <==> t in DefaultTable()
  {
  }

  // ---------------------------------------------------------------------------
  // create_adapter

  /** The config's model_type lower-cased; None is a config without the attribute,
      which reads as 'unknown'. */
  function DeclaredType(modelType: Option<string>): string {
    Lower(if modelType.Some? then modelType.value else "unknown")
  }

  /** A forced adapter type counts only when given and non-empty (an empty string is
      falsy), and is then lower-cased; otherwise the declared type is looked up. */
  function LookupKey(modelType: Option<string>, adapterType: Option<string>): string {
    if adapterType.Some? && adapterType.value != "" then Lower(adapterType.value)
    else DeclaredType(modelType)
  }

  /** create_adapter's choice over a given table; a failed lookup never raises. */
  function Select(table: map<string, AdapterKind>, modelType: Option<string>,
                  adapterType: Option<string>): Choice {
    var key := LookupKey(modelType, adapterType);
    if key in table then Choice(table[key], false) else Choice(CausalLm, true)
  }

  /** The lookup key is always lower-case, so an upper-case key in the table could never be chosen. */
  lemma LookupKeyIsLower(modelType: Option<string>, adapterType: Option<string>)
    ensures Lower(LookupKey(modelType, adapterType)) == LookupKey(modelType, adapterType)
  {
    LowerIdempotent(if adapterType.Some? then adapterType.value else "");
    LowerIdempotent(if modelType.Some? then modelType.value else "unknown");
  }

  /** A forced type wins: the model's declared family no longer matters, even when the
      table lists it. */
  lemma ForcedTypeWins(table: map<string, AdapterKind>, m1: Option<string>, m2: Option<string>,
                       forced: string)
    requires forced != ""
    ensures Select(table, m1, Some(forced)) == Select(table, m2, Some(forced))
    ensures Lower(forced) in table ==> Select(table, m1, Some(forced)) == Choice(table[Lower(forced)], false)
  {
  }

  /** An empty forced type is the same as none: the declared type is detected. */
  lemma EmptyForcedTypeDetects(table: map<string, AdapterKind>, modelType: Option<string>)
    ensures Select(table, modelType, Some("")) == Select(table, modelType, None)
  {
  }

  /** The forced type is matched without regard to ASCII case. */
  lemma ForcedTypeIgnoresCase(table: map<string, AdapterKind>, modelType: Option<string>, forced: string)
    ensures Select(table, modelType, Some(forced)) == Select(table, modelType, Some(Lower(forced)))
  {
    LowerIdempotent(forced);
    assert |Lower(forced)| == |forced|;
  }

  /** The factory warns and falls back exactly when the key is missing, and the fallback
      is always the decoder-only adapter; otherwise it serves the table's entry. */
  lemma FallbackIsCausalLm(table: map<string, AdapterKind>, modelType: Option<string>,
                           adapterType: Option<string>)
    ensures var r := Select(table, modelType, adapterType);
            (r.fellBack <==> LookupKey(modelType, adapterType) !in table)
            && (r.fellBack ==> r.adapter == CausalLm)
            && (!r.fellBack ==> r.adapter == table[LookupKey(modelType, adapterType)])
  {
  }

  /** With the out-of-the-box table a model declaring 't5', in any case, gets the
      encoder-decoder adapter, and every other listed family the decoder-only one. */
  lemma DefaultChoices()
    ensures Select(DefaultTable(), Some("t5"), None) == Choice(T5, false)
    ensures Select(DefaultTable(), Some("T5"), None) == Choice(T5, false)
    ensures forall t :: t in DefaultTypes && t != "t5" ==> Select(DefaultTable(), Some(t), None) == Choice(CausalLm, false)
  {
    DefaultTableWellFormed();
    assert Lower("T5") == "t5";
  }

  /** No listed family starts with 'c' or 'u'. */
  lemma DefaultInitials(x: string)
    requires x != [] && (x[0] == 'c' || x[0] == 'u')
    ensures x !in DefaultTable()
  {
  }

  /** The documented forced value 'causal_lm' is not in the out-of-the-box table, and
      neither is 'unknown', read for a config without model_type: both reach the
      decoder-only adapter only by falling back, with the warning. */
  lemma UnlistedTypesFallBack(modelType: Option<string>)
    ensures Select(DefaultTable(), modelType, Some("causal_lm")) == Choice(CausalLm, true)
    ensures Select(DefaultTable(), None, None) == Choice(CausalLm, true)
  {
    assert Lower("causal_lm") == "causal_lm" by { LowerKeepsLower("causal_lm"); }
    assert Lower("unknown") == "unknown" by { LowerKeepsLower("unknown"); }
    DefaultInitials("causal_lm");
    DefaultInitials("unknown");
  }

  // ---------------------------------------------------------------------------
  // register_adapter

  /** After registering c under t, t in any case (forced or declared) chooses c, and
      every other key chooses what it chose before. */
  lemma RegisterThenSelect(table: map<string, AdapterKind>, t: string, c: AdapterKind,
                           modelType: Option<string>, adapterType: Option<string>)
    ensures Select(table[Lower(t) := c], modelType, adapterType)
         == if LookupKey(modelType, adapterType) == Lower(t) then Choice(c, false)
            else Select(table, modelType, adapterType)
  {
  }

  /** Every type the factory lists as supported is chosen by detection when a model
      declares it, and by forcing it when it is non-empty. */
  lemma SupportedTypesAreReachable(types: seq<string>, table: map<string, AdapterKind>, t: string,
                                   modelType: Option<string>)
    requires WellFormed(types, table) && t in types
    ensures Select(table, Some(t), None) == Choice(table[t], false)
    ensures t != "" ==> Select(table, modelType, Some(t)) == Choice(table[t], false)
  {
  }

  /** The factory: the class-level table that create_adapter reads and register_adapter
      changes. */
  class ModelAdapterFactory {
    /** The table's keys in insertion order. */
    var types: seq<string>
    var table: map<string, AdapterKind>

    ghost predicate Valid()
      reads this
    {
      WellFormed(types, table)
    }

    constructor ()
      ensures Valid() && types == DefaultTypes && table == DefaultTable()
    {
      types := DefaultTypes;
      table := DefaultTable();
      DefaultTableWellFormed();
    }

    /** The adapter chosen for a model; it warns exactly when the lookup key is not a
        supported type. The model's config is reduced to its model_type attribute. */
    function CreateAdapter(modelType: Option<string>, adapterType: Option<string>): (r: Choice)
      reads this
      ensures Valid() ==> (r.fellBack <==> LookupKey(modelType, adapterType) !in GetSupportedTypes())
      ensures r.fellBack ==> r.adapter == CausalLm
      ensures !r.fellBack ==> LookupKey(modelType, adapterType) in table
                              && r.adapter == table[LookupKey(modelType, adapterType)]
    {
      Select(table, modelType, adapterType)
    }

    /** Stores c under the lower-cased type, overwriting an existing entry in place;
        a new type joins the end of the listing. */
    method RegisterAdapter(modelType: string, c: AdapterKind)
      requires Valid()
      modifies this
      ensures Valid()
      ensures table == old(table)[Lower(modelType) := c]
      ensures types == if Lower(modelType) in old(table) then old(types) else old(types) + [Lower(modelType)]
    {
      var key := Lower(modelType);
      LowerIdempotent(modelType);
      if key !in table {
        types := types + [key];
      }
      table := table[key := c];
    }

    /** The table's keys, each once, in insertion order. */
    function GetSupportedTypes(): (r: seq<string>)
      reads this
      ensures Valid() ==> Distinct(r) && forall t :: t in r <==> t in table
    {
      types
    }
  }

  // ---------------------------------------------------------------------------
  // batch_generate

  /** The consecutive slices range(0, len(prompts), batchSize) cuts: all of size
      batchSize but the last, which holds what is left. */
  function Chunks(prompts: seq<string>, batchSize: nat): (cs: seq<seq<string>>)
    requires batchSize >= 1
    ensures forall t :: 0 <= t < |cs| ==> 1 <= |cs[t]| <= batchSize
    ensures forall t :: 0 <= t < |cs| - 1 ==> |cs[t]| == batchSize
    decreases |prompts|
  {
    if prompts == [] then []
    else
      var c := Min(batchSize, |prompts|);
      [prompts[..c]] + Chunks(prompts[c..], batchSize)
  }

  function Concat(ss: seq<seq<string>>): seq<string> {
    if ss == [] then [] else ss[0] + Concat(ss[1..])
  }

  /** The chunks put back together are the prompts, in their order. */
  lemma {:induction false} ChunksConcat(prompts: seq<string>, batchSize: nat)
    requires batchSize >= 1
    ensures Concat(Chunks(prompts, batchSize)) == prompts
    decreases |prompts|
  {
    if prompts != [] {
      var c := Min(batchSize, |prompts|);
      ChunksConcat(prompts[c..], batchSize);
      assert Chunks(prompts, batchSize)[1..] == Chunks(prompts[c..], batchSize);
      assert prompts == prompts[..c] + prompts[c..];
    }
  }

  /** What batch_generate returns: generate on the first batchSize prompts, then on
      the rest, the answers concatenated in order. */
  function Batched(generate: seq<string> -> seq<string>, prompts: seq<string>, batchSize: nat): seq<string>
    requires batchSize >= 1
    decreases |prompts|
  {
    if prompts == [] then []
    else
      var c := Min(batchSize, |prompts|);
      generate(prompts[..c]) + Batched(generate, prompts[c..], batchSize)
  }

  /** Generate on each of a list of batches, the answers concatenated in order. */
  function GenerateEach(generate: seq<string> -> seq<string>, batches: seq<seq<string>>): seq<string> {
    if batches == [] then [] else generate(batches[0]) + GenerateEach(generate, batches[1..])
  }

  /** batch_generate answers exactly the chunks, one generate call per chunk, in order. */
  lemma {:induction false} BatchedOverChunks(generate: seq<string> -> seq<string>, prompts: seq<string>,
                                             batchSize: nat)
    requires batchSize >= 1
    ensures Batched(generate, prompts, batchSize) == GenerateEach(generate, Chunks(prompts, batchSize))
    decreases |prompts|
  {
    if prompts != [] {
      var c := Min(batchSize, |prompts|);
      BatchedOverChunks(generate, prompts[c..], batchSize);
      assert Chunks(prompts, batchSize)[1..] == Chunks(prompts[c..], batchSize);
    }
  }

  /** A generator that answers with exactly one string per prompt. */
  ghost predicate OnePerPrompt(generate: seq<string> -> seq<string>) {
    forall ps :: |generate(ps)| == |ps|
  }

  /** A generator that answers each prompt on its own, with `answer`. */
  ghost predicate Pointwise(generate: seq<string> -> seq<string>, answer: string -> string) {
    forall ps :: |generate(ps)| == |ps| && forall i :: 0 <= i < |ps| ==> generate(ps)[i] == answer(ps[i])
  }

  /** With one answer per prompt, batching returns one answer per prompt. */
  lemma {:induction false} BatchedLength(generate: seq<string> -> seq<string>, prompts: seq<string>,
                                         batchSize: nat)
    requires batchSize >= 1 && OnePerPrompt(generate)
    ensures |Batched(generate, prompts, batchSize)| == |prompts|
    decreases |prompts|
  {
    if prompts != [] {
      var c := Min(batchSize, |prompts|);
      BatchedLength(generate, prompts[c..], batchSize);
    }
  }

  /** When each prompt is answered on its own, the batch size changes nothing: answer i
      is the answer to prompt i. */
  lemma {:induction false} BatchSizeIrrelevant(generate: seq<string> -> seq<string>, answer: string -> string,
                                               prompts: seq<string>, batchSize: nat)
    requires batchSize >= 1 && Pointwise(generate, answer)
    ensures var out := Batched(generate, prompts, batchSize);
            |out| == |prompts| && forall i :: 0 <= i < |prompts| ==> out[i] == answer(prompts[i])
    decreases |prompts|
  {
    if prompts != [] {
      var c := Min(batchSize, |prompts|);
      var head, rest := prompts[..c], prompts[c..];
      BatchSizeIrrelevant(generate, answer, rest, batchSize);
      var out := Batched(generate, prompts, batchSize);
      assert out == generate(head) + Batched(generate, rest, batchSize);
      forall i | 0 <= i < |prompts| ensures out[i] == answer(prompts[i]) {
        if i < c {
          assert out[i] == generate(head)[i];
          assert head[i] == prompts[i];
        } else {
          assert out[i] == Batched(generate, rest, batchSize)[i - c];
          assert rest[i - c] == prompts[i];
        }
      }
    }
  }

  /** The prompts from i on are answered as the slice prompts[i:i+batchSize], then the rest. */
  lemma BatchedFrom(generate: seq<string> -> seq<string>, prompts: seq<string>, i: nat, batchSize: nat)
    requires batchSize >= 1 && i < |prompts|
    ensures var end := Min(i + batchSize, |prompts|);
            Batched(generate, prompts[i..], batchSize)
            == generate(prompts[i..end]) + Batched(generate, prompts[end..], batchSize)
  {
    var end := Min(i + batchSize, |prompts|);
    var rest := prompts[i..];
    assert rest[..end - i] == prompts[i..end] && rest[end - i..] == prompts[end..];
  }

  /** batch_generate. A zero batch size makes range() raise ValueError; a negative one
      gives an empty range, so nothing is generated. */
  method BatchGenerate(generate: seq<string> -> seq<string>, prompts: seq<string>, batchSize: int)
    returns (r: Result<seq<string>, string>)
    ensures batchSize == 0 <==> r.Err?
    ensures batchSize < 0 ==> r == Ok([])
    ensures batchSize >= 1 ==> r == Ok(Batched(generate, prompts, batchSize))
  {
    if batchSize == 0 {
      return Err("ValueError");
    }
    var results: seq<string> := [];
    if batchSize < 0 {
      return Ok(results);
    }
    var i := 0;
    ghost var done: nat := 0;
    while i < |prompts|
      invariant done == Min(i, |prompts|)
      invariant results + Batched(generate, prompts[done..], batchSize) == Batched(generate, prompts, batchSize)
      decreases |prompts| - i
    {
      var batch := prompts[i..Min(i + batchSize, |prompts|)];
      BatchedFrom(generate, prompts, i, batchSize);
      results := results + generate(batch);
      i := i + batchSize;
      done := Min(i, |prompts|);
    }
    assert prompts[done..] == [] && results + [] == results;
    return Ok(results);
  }

  // ---------------------------------------------------------------------------
  // The decoder-only adapter's generate

  type Token = nat

  /** generate takes a list of prompts or a lone prompt. */
  datatype PromptArg = Single(prompt: string) | Batch(prompts: seq<string>)

  /** A lone prompt is wrapped into a one-element list. */
  function AsBatch(arg: PromptArg): (ps: seq<string>)
    ensures arg.Single? ==> |ps| == 1 && ps[0] == arg.prompt
    ensures arg.Batch? ==> ps == arg.prompts
  {
    match arg
    case Single(p) => [p]
    case Batch(ps) => ps
  }

  /** The length of the longest row: the width of the padded input tensor. */
  function Width(rows: seq<seq<Token>>): (w: nat)
    ensures forall r :: 0 <= r < |rows| ==> |rows[r]| <= w
    ensures rows == [] ==> w == 0
    ensures rows != [] ==> exists r :: 0 <= r < |rows| && |rows[r]| == w
  {
    if rows == [] then 0
    else
      var w := Width(rows[1..]);
      assert forall r :: 1 <= r < |rows| ==> rows[r] == rows[1..][r - 1];
      if |rows[0]| >= w then |rows[0]| else w
  }

  /** The tokenizer with padding on the left: each row gets pad tokens in front until it
      is as long as the longest row. */
  function PadLeft(rows: seq<seq<Token>>, pad: Token): (p: seq<seq<Token>>)
    ensures |p| == |rows|
    ensures forall r :: 0 <= r < |rows| ==>
              |p[r]| == Width(rows) && p[r][Width(rows) - |rows[r]|..] == rows[r]
              && forall j :: 0 <= j < Width(rows) - |rows[r]| ==> p[r][j] == pad
  {
    var w := Width(rows);
    seq(|rows|, r requires 0 <= r < |rows| => seq(w - |rows[r]|, _ => pad) + rows[r])
  }

  /** output_ids[:, width:]: the first `width` tokens of every row are cut off (a row
      shorter than that becomes empty, as a slice would). */
  function StripPrompt(outputIds: seq<seq<Token>>, width: nat): (g: seq<seq<Token>>)
    ensures |g| == |outputIds|
    ensures forall r :: 0 <= r < |outputIds| ==>
              g[r] == outputIds[r][Min(width, |outputIds[r]|)..]
  {
    seq(|outputIds|, r requires 0 <= r < |outputIds| => outputIds[r][Min(width, |outputIds[r]|)..])
  }

  /** A model that returns each input row followed by the tokens it generated, as
      generation with a decoder-only model does. */
  ghost predicate EchoesInput(model: seq<seq<Token>> -> seq<seq<Token>>) {
    forall input :: |model(input)| == |input|
      && forall r :: 0 <= r < |input| ==> |input[r]| <= |model(input)[r]| && model(input)[r][..|input[r]|] == input[r]
  }

  /** Each prompt's tokens, one row per prompt. */
  function TokenRows(tokenize: string -> seq<Token>, prompts: seq<string>): (rows: seq<seq<Token>>)
    ensures |rows| == |prompts| && forall i :: 0 <= i < |prompts| ==> rows[i] == tokenize(prompts[i])
  {
    seq(|prompts|, i requires 0 <= i < |prompts| => tokenize(prompts[i]))
  }

  /** The decoder-only adapter's generate, with the chat template off: wrap a lone
      prompt, tokenize with left padding, run the model, cut the padded prompt off each
      row and decode what remains. */
  function CausalGenerate(tokenize: string -> seq<Token>, model: seq<seq<Token>> -> seq<seq<Token>>,
                          decode: seq<Token> -> string, pad: Token, arg: PromptArg): seq<string>
  {
    var rows := TokenRows(tokenize, AsBatch(arg));
    var generated := StripPrompt(model(PadLeft(rows, pad)), Width(rows));
    seq(|generated|, i requires 0 <= i < |generated| => decode(generated[i]))
  }

  /** Cutting a rectangular input's width off each row of an echoing model's output leaves
      exactly the generated tokens: input row r followed by stripped row r is output row r. */
  lemma StripLeavesContinuation(input: seq<seq<Token>>, output: seq<seq<Token>>, width: nat)
    requires forall r :: 0 <= r < |input| ==> |input[r]| == width
    requires |output| == |input|
    requires forall r :: 0 <= r < |input| ==> width <= |output[r]| && output[r][..width] == input[r]
    ensures forall r :: 0 <= r < |input| ==> output[r] == input[r] + StripPrompt(output, width)[r]
  {
    forall r | 0 <= r < |input| ensures output[r] == input[r] + StripPrompt(output, width)[r] {
      assert output[r] == output[r][..width] + output[r][width..];
    }
  }

  /** outs answers input row by row: output row r is input row r followed by the tokens
      outs[r] decodes. */
  ghost predicate DecodesContinuations(outs: seq<string>, input: seq<seq<Token>>, output: seq<seq<Token>>,
                                       decode: seq<Token> -> string) {
    |outs| == |input| == |output|
    && forall r :: 0 <= r < |input| ==>
         |input[r]| <= |output[r]| && output[r] == input[r] + output[r][|input[r]|..]
         && outs[r] == decode(output[r][|input[r]|..])
  }

  /** With an echoing model, the decoder-only adapter answers each prompt, a lone one
      included, with the decoding of exactly the tokens the model produced after that
      prompt's padded row: left padding makes every row as wide as the cut. */
  lemma CausalGenerateAnswersEachPrompt(tokenize: string -> seq<Token>,
                                        model: seq<seq<Token>> -> seq<seq<Token>>,
                                        decode: seq<Token> -> string, pad: Token, arg: PromptArg)
    requires EchoesInput(model)
    ensures |CausalGenerate(tokenize, model, decode, pad, arg)| == |AsBatch(arg)|
    ensures var input := PadLeft(TokenRows(tokenize, AsBatch(arg)), pad);
            DecodesContinuations(CausalGenerate(tokenize, model, decode, pad, arg), input, model(input), decode)
  {
    var rows := TokenRows(tokenize, AsBatch(arg));
    var input := PadLeft(rows, pad);
    var output := model(input);
    var w := Width(rows);
    var outs := CausalGenerate(tokenize, model, decode, pad, arg);
    StripLeavesContinuation(input, output, w);
    forall r | 0 <= r < |input|
      ensures |input[r]| <= |output[r]| && output[r] == input[r] + output[r][|input[r]|..]
              && outs[r] == decode(output[r][|input[r]|..])
    {
      assert StripPrompt(output, w)[r] == output[r][|input[r]|..];
    }
  }
}
