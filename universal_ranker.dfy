/** The record every ranker consumes and produces: a retrieved document. */
module UniversalRanker {
  import opened Prelude

  /** A document: its identity, a score (a float upstream; here always a whole
      number, because every score the setwise ranker writes is -1, -2, ...) and
      an optional passage text. */
  datatype SearchResult = SearchResult(docid: string, score: int, text: Option<string>)

  /** The identities of a list of documents, in order. */
  function Ids(docs: seq<SearchResult>): (r: seq<string>)
    ensures |r| == |docs| && forall t :: 0 <= t < |docs| ==> r[t] == docs[t].docid
  {
    seq(|docs|, t requires 0 <= t < |docs| => docs[t].docid)
  }

  /** The passage texts of a list of documents, in order. */
  function Texts(docs: seq<SearchResult>): (r: seq<Option<string>>)
    ensures |r| == |docs| && forall t :: 0 <= t < |docs| ==> r[t] == docs[t].text
  {
    seq(|docs|, t requires 0 <= t < |docs| => docs[t].text)
  }
}
