/** The state the Streamlit session carries between script runs: the graph
    store and the names of the uploaded files already ingested. */
module Ingestion {
  import opened Wrappers
  import opened Json
  import opened Graph
  import opened Match

  /** One uploaded file as the ingestion loop sees it: its file name, the
      text extracted from the PDF, and the extractor oracle's reply to that
      text (None when the LLM call or `json.loads` raised). */
  datatype Upload = Upload(name: string, text: string, reply: Option<JsonValue>)

  datatype Session<N(==)> = Session(store: Store<N>, processed: set<string>)

  /** The names of the files of the batch that `pick` selects. */
  function NamesWhere(files: seq<Upload>, pick: Upload -> bool): set<string>
    decreases |files|
  {
    if files == [] then {}
    else (if pick(files[0]) then {files[0].name} else {}) + NamesWhere(files[1..], pick)
  }

  /** A name is in the set exactly when some file of the batch carries it
      and is selected. */
  lemma {:induction false} NamesWhereSpec(files: seq<Upload>, pick: Upload -> bool, n: string)
    ensures n in NamesWhere(files, pick) <==>
              exists i :: 0 <= i < |files| && pick(files[i]) && files[i].name == n
    decreases |files|
  {
    if files != [] {
      var rest := files[1..];
      NamesWhereSpec(rest, pick, n);
      if n in NamesWhere(rest, pick) {
        var i :| 0 <= i < |rest| && pick(rest[i]) && rest[i].name == n;
        assert files[i + 1] == rest[i];
      }
      if exists i :: 0 <= i < |files| && pick(files[i]) && files[i].name == n {
        var i :| 0 <= i < |files| && pick(files[i]) && files[i].name == n;
        if i > 0 {
          assert rest[i - 1] == files[i];
        }
      }
    }
  }

  /** The "Clear Graph DB" button: delete every node and relationship,
      then empty the processed set. Afterwards no query finds anyone and no
      file counts as processed. */
  function Clear<N(==)>(): (s: Session<N>)
    ensures s.processed == {}
    ensures s.store.candidates == map[] && s.store.nodes == {} && s.store.edges == {}
  {
    Session(Empty(), {})
  }

  /** After a clear, no query finds anyone and the store is valid. */
  lemma ClearForgetsEverything<N>(terms: seq<N>, q: N, hash: string -> Digest)
    ensures MatchAll(Clear<N>().store, terms) == {}
    ensures SingleMatch(Clear<N>().store, q) == {}
    ensures Valid(Clear<N>().store, hash)
  {
  }
}
