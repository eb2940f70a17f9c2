/** The ingestion loop and the clear button of the word-search variant, as
    pure functions on the session state. */
module WordSearchSession {
  import opened Wrappers
  import opened Collections
  import opened Text
  import opened Graph
  import opened Match
  import opened Ingestion
  import opened WordSearchProfile
  import opened WordSearchGraph
  import opened WordSearchQuery

  /** The file's reply normalises to a profile. */
  predicate Accepts(f: Upload) {
    Normalize(f.reply).Some?
  }

  /** One pass of the loop body: skip a processed name; otherwise normalise
      the reply and, on success only, upsert and record the name. An
      ingested file's candidate is stored and linked to every item of its
      profile, so its skills are searchable. */
  function Step(s: Session<string>, f: Upload, hash: string -> Digest, onMatchSet: bool): (r: Session<string>)
    ensures f.name in s.processed || !Accepts(f) ==> r == s
    ensures r.processed == s.processed + (if Accepts(f) then {f.name} else {})
    ensures Grows(s.store, r.store)
    ensures f.name !in s.processed && Accepts(f) ==> hash(f.text) in r.store.candidates
    ensures f.name !in s.processed && Accepts(f) ==>
              var p := Normalize(f.reply).value;
              forall c: Category, i :: 0 <= i < |Items(p, c)| ==>
                Linked(r.store, hash(f.text), c, Lower(Items(p, c)[i]))
  {
    if f.name in s.processed then s
    else
      match Normalize(f.reply)
      case None => s
      case Some(p) =>
        UpsertLinksEveryItem(s.store, p, f.text, hash, onMatchSet);
        Session(Upsert(s.store, p, f.text, hash, onMatchSet), s.processed + {f.name})
  }

  /** The names of the files in the batch whose reply normalises. */
  function AcceptedNames(files: seq<Upload>): set<string> {
    NamesWhere(files, Accepts)
  }

  /** with_word_search_only.py lines 113-122: the loop over the uploaded
      files, in order. Afterwards the processed names are the old ones plus
      exactly the names of the files whose reply normalised, and the store
      has only grown. */
  function Ingest(s: Session<string>, files: seq<Upload>, hash: string -> Digest,
                  onMatchSet: bool): (r: Session<string>)
    ensures r.processed == s.processed + AcceptedNames(files)
    ensures Grows(s.store, r.store)
    decreases |files|
  {
    if files == [] then s
    else
      Ingest(Step(s, files[0], hash, onMatchSet), files[1..], hash, onMatchSet)
  }

  /** One script run: the clear button (with_word_search_only.py lines
      106-108) is handled before the loop. */
  function Rerun(s: Session<string>, clear: bool, files: seq<Upload>, hash: string -> Digest,
                 onMatchSet: bool): (r: Session<string>)
    ensures clear ==> r.processed == AcceptedNames(files)
    ensures !clear ==> Grows(s.store, r.store) && s.processed <= r.processed
  {
    Ingest(if clear then Clear() else s, files, hash, onMatchSet)
  }

  /** Ingestion keeps the store valid. */
  lemma {:induction false} IngestKeepsValid(s: Session<string>, files: seq<Upload>,
                                            hash: string -> Digest, onMatchSet: bool)
    requires Valid(s.store, hash)
    ensures Valid(Ingest(s, files, hash, onMatchSet).store, hash)
    decreases |files|
  {
    if files != [] {
      var f := files[0];
      if f.name !in s.processed && Accepts(f) {
        UpsertKeepsValid(s.store, Normalize(f.reply).value, f.text, hash, onMatchSet);
      }
      IngestKeepsValid(Step(s, f, hash, onMatchSet), files[1..], hash, onMatchSet);
    }
  }

  /** A session that has already recorded every accepted name of a batch
      is left untouched by that batch. */
  lemma {:induction false} IngestSettled(s: Session<string>, files: seq<Upload>,
                                         hash: string -> Digest, onMatchSet: bool)
    requires AcceptedNames(files) <= s.processed
    ensures Ingest(s, files, hash, onMatchSet) == s
    decreases |files|
  {
    if files != [] {
      IngestSettled(s, files[1..], hash, onMatchSet);
    }
  }

  /** Streamlit reruns the script on every interaction with the same
      uploads: with the same replies, the second run changes nothing. */
  lemma RerunIdempotent(s: Session<string>, files: seq<Upload>,
                        hash: string -> Digest, onMatchSet: bool)
    ensures var r := Ingest(s, files, hash, onMatchSet);
            Ingest(r, files, hash, onMatchSet) == r
  {
    IngestSettled(Ingest(s, files, hash, onMatchSet), files, hash, onMatchSet);
  }

  /** A skill typed in any letter case, alone in the search box, finds the
      candidate whose resume listed it in any other case. */
  lemma SearchIgnoresCase(st: Store<string>, p: Profile, text: string, j: int,
                          hash: string -> Digest, onMatchSet: bool, q: string)
    requires 0 <= j < |p.skills|
    requires ',' !in q && Strip(q) != []
    requires Lower(Strip(q)) == Lower(p.skills[j])
    ensures var r := Upsert(st, p, text, hash, onMatchSet);
            Search(r, q).Some? && hash(text) in Search(r, q).value
  {
    var r := Upsert(st, p, text, hash, onMatchSet);
    var skill := Lower(p.skills[j]);
    assert HasSkill(r, hash(text), skill) && hash(text) in r.candidates by {
      UpsertLinksEveryItem(st, p, text, hash, onMatchSet);
      assert Items(p, Skill)[j] == p.skills[j];
    }
    assert ParseTerms(q) == [skill] by {
      ParseSingle(q);
    }
    SingleMatchSpec(r, skill, hash(text));
  }
}
