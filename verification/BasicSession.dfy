/** The ingestion loop and the clear button of the basic variant. An
    exception escaping the upsert ends the script run: the files after it
    are not visited and the failing file's name is not recorded, but the
    writes made before the exception stay in the graph. */
module BasicSession {
  import opened Wrappers
  import opened Json
  import opened Graph
  import opened Ingestion
  import opened BasicGraph

  /** `if structured_data:` holds for the file's parsed reply. */
  predicate Wanted(f: Upload) {
    Truthy(Extract(f.reply))
  }

  /** One pass of the loop body (main4.py lines 104-112): skip a processed
      name, skip a falsy reply, otherwise upsert and, if that did not raise,
      record the name. */
  function Step(s: Session<JsonValue>, f: Upload, hash: string -> Digest,
                onMatchSet: bool): (r: Run<Session<JsonValue>>)
    ensures f.name in s.processed || !Wanted(f) ==> r == Completed(s)
    ensures r.Completed? ==> r.value.processed == s.processed + (if Wanted(f) then {f.name} else {})
    ensures r.Crashed? ==> r.value.processed == s.processed && f.name !in s.processed && Wanted(f)
    ensures Grows(s.store, r.value.store)
  {
    if f.name in s.processed then Completed(s)
    else
      var data := Extract(f.reply);
      if !Truthy(data) then Completed(s)
      else
        UpsertOnlyAdds(s.store, data, f.text, hash, onMatchSet);
        match Upsert(s.store, data, f.text, hash, onMatchSet)
        case Completed(st) => Completed(Session(st, s.processed + {f.name}))
        case Crashed(st) => Crashed(Session(st, s.processed))
  }

  /** The names of the files in the batch with a truthy reply. */
  function WantedNames(files: seq<Upload>): set<string> {
    NamesWhere(files, Wanted)
  }

  /** The loop over the uploaded files, in order, stopping at the first
      upsert that raises. A run that completes records exactly the names
      with a truthy reply; any run records only such names, and the store
      only grows. */
  function Ingest(s: Session<JsonValue>, files: seq<Upload>, hash: string -> Digest,
                  onMatchSet: bool): (r: Run<Session<JsonValue>>)
    ensures r.Completed? ==> r.value.processed == s.processed + WantedNames(files)
    ensures s.processed <= r.value.processed <= s.processed + WantedNames(files)
    ensures Grows(s.store, r.value.store)
    decreases |files|
  {
    if files == [] then Completed(s)
    else
      match Step(s, files[0], hash, onMatchSet)
      case Crashed(s1) => Crashed(s1)
      case Completed(s1) => Ingest(s1, files[1..], hash, onMatchSet)
  }

  /** One script run: the clear button (main4.py lines 96-98) is handled
      before the loop. */
  function Rerun(s: Session<JsonValue>, clear: bool, files: seq<Upload>, hash: string -> Digest,
                 onMatchSet: bool): (r: Run<Session<JsonValue>>)
    ensures clear && r.Completed? ==> r.value.processed == WantedNames(files)
    ensures !clear ==> Grows(s.store, r.value.store) && s.processed <= r.value.processed
  {
    Ingest(if clear then Clear() else s, files, hash, onMatchSet)
  }

  /** Ingestion keeps the store valid, crash or not. */
  lemma {:induction false} IngestKeepsValid(s: Session<JsonValue>, files: seq<Upload>,
                                            hash: string -> Digest, onMatchSet: bool)
    requires Valid(s.store, hash)
    ensures Valid(Ingest(s, files, hash, onMatchSet).value.store, hash)
    decreases |files|
  {
    if files != [] {
      var f := files[0];
      UpsertKeepsValid(s.store, Extract(f.reply), f.text, hash, onMatchSet);
      var s1 := Step(s, f, hash, onMatchSet);
      if s1.Completed? {
        IngestKeepsValid(s1.value, files[1..], hash, onMatchSet);
      }
    }
  }

  /** Streamlit reruns the script on every interaction with the same
      uploads: with the same replies the second run has the same outcome
      and leaves the session as the first run left it. When the first run
      crashed, the second crashes on the same file, whose upsert is
      repeated to no effect. */
  lemma {:induction false} RerunIdempotent(s: Session<JsonValue>, files: seq<Upload>,
                                           hash: string -> Digest, onMatchSet: bool)
    ensures var r := Ingest(s, files, hash, onMatchSet);
            Ingest(r.value, files, hash, onMatchSet) == r
    decreases |files|
  {
    if files != [] {
      var f := files[0];
      var r := Ingest(s, files, hash, onMatchSet);
      var data := Extract(f.reply);
      UpsertIdempotent(s.store, data, f.text, hash, onMatchSet);
      match Step(s, f, hash, onMatchSet)
      case Crashed(s1) =>
        assert Step(s1, f, hash, onMatchSet) == Crashed(s1);
      case Completed(s1) =>
        RerunIdempotent(s1, files[1..], hash, onMatchSet);
        assert r == Ingest(s1, files[1..], hash, onMatchSet);
        assert Step(r.value, f, hash, onMatchSet) == Completed(r.value);
    }
  }
}
