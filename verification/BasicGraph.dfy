/** `get_structured_data_from_llm` and `add_candidate_to_neo4j` of the
    basic variant. The parsed reply is kept verbatim, so names and items are
    raw JSON values, and nothing around the upsert catches an exception:
    a reply of the wrong shape aborts the script run. */
module BasicGraph {
  import opened Wrappers
  import opened Json
  import opened Graph
  import opened Match

  /** The outcome of code that may raise an uncaught exception, with the
      value reached either way (the writes made before the exception stay). */
  datatype Run<T> = Completed(value: T) | Crashed(value: T)

  /** The extractor returns the parsed reply unchanged, and `{}` when the
      call or the parse raised. */
  function Extract(reply: Option<JsonValue>): (data: JsonValue)
    ensures reply.Some? ==> data == reply.value
    ensures reply.None? ==> !Truthy(data)
  {
    match reply
    case Some(v) => v
    case None => JObj([])
  }

  /** `data.get(field, [])` for category `c`. */
  function FieldValue(ms: seq<(string, JsonValue)>, c: Category): JsonValue {
    GetOr(ms, Field(c), JArr([]))
  }

  /** The items `for item in items` visits for category `c`; empty when the
      field cannot be iterated (the loop raises there instead). */
  function FieldItems(ms: seq<(string, JsonValue)>, c: Category): seq<JsonValue> {
    match Iterate(FieldValue(ms, c))
    case Some(xs) => xs
    case None => []
  }

  /** Every one of the five fields is absent or iterable. */
  predicate AllIterable(ms: seq<(string, JsonValue)>) {
    forall i :: 0 <= i < |Categories| ==> Iterable(FieldValue(ms, Categories[i]))
  }

  /** The five (label, items) pairs in the order the source lists them. */
  function Listed(ms: seq<(string, JsonValue)>): seq<Group<JsonValue>> {
    seq(|Categories|, i requires 0 <= i < |Categories| => (Categories[i], FieldItems(ms, Categories[i])))
  }

  /** The (label, items) pairs the loop gets through: the categories of
      `cats` in order, up to the first field that cannot be iterated. */
  function FieldGroups(ms: seq<(string, JsonValue)>, cats: seq<Category>): (gs: seq<Group<JsonValue>>)
    ensures |gs| <= |cats|
    ensures forall i :: 0 <= i < |gs| ==>
              gs[i] == (cats[i], FieldItems(ms, cats[i])) && Iterable(FieldValue(ms, cats[i]))
    ensures |gs| < |cats| ==> !Iterable(FieldValue(ms, cats[|gs|]))
    decreases |cats|
  {
    if cats == [] then []
    else
      match Iterate(FieldValue(ms, cats[0]))
      case None => []
      case Some(items) => [(cats[0], items)] + FieldGroups(ms, cats[1..])
  }

  /** The loop gets through a prefix of the five categories, and through all
      of them exactly when every field is iterable. */
  lemma FieldGroupsPrefix(ms: seq<(string, JsonValue)>)
    ensures var gs := FieldGroups(ms, Categories);
            && gs == Listed(ms)[..|gs|]
            && (|gs| == |Categories| <==> AllIterable(ms))
  {
    var gs := FieldGroups(ms, Categories);
    var all := Listed(ms);
    assert gs == all[..|gs|];
    if |gs| < |Categories| {
      assert !Iterable(FieldValue(ms, Categories[|gs|]));
    }
  }

  /** The candidate's properties: the reply's name verbatim (default
      "Unknown") and the resume text. */
  function Props(ms: seq<(string, JsonValue)>, text: string): CandidateProps<JsonValue> {
    CandidateProps(GetOr(ms, "name", JStr("Unknown")), text)
  }

  /** The upsert: `data.get` raises on anything but a dict, before any write;
      otherwise the candidate is merged with its name verbatim (default
      "Unknown"), then the categories in order until one cannot be iterated. */
  function Upsert(st: Store<JsonValue>, data: JsonValue, text: string,
                  hash: string -> Digest, onMatchSet: bool): Run<Store<JsonValue>> {
    if !data.JObj? then Crashed(st)
    else
      var ms := data.members;
      var groups := FieldGroups(ms, Categories);
      var r := Merge(st, hash(text), Props(ms, text),
                     groups, onMatchSet);
      if |groups| == |Categories| then Completed(r) else Crashed(r)
  }

  /** The upsert completes exactly when the reply is a dict whose five list
      fields are all absent or iterable; a non-dict reply crashes with the
      store untouched. */
  lemma UpsertCompletes(st: Store<JsonValue>, data: JsonValue, text: string,
                        hash: string -> Digest, onMatchSet: bool)
    ensures var r := Upsert(st, data, text, hash, onMatchSet);
            && (!data.JObj? ==> r == Crashed(st))
            && (r.Completed? <==> data.JObj? && AllIterable(data.members))
  {
    if data.JObj? {
      FieldGroupsPrefix(data.members);
    }
  }

  /** Links for every listed group are links for every category's items. */
  lemma ListedLinked(r: Store<JsonValue>, key: Digest, ms: seq<(string, JsonValue)>)
    requires forall k, i :: 0 <= k < |Listed(ms)| && 0 <= i < |Listed(ms)[k].1| ==>
               Linked(r, key, Listed(ms)[k].0, Listed(ms)[k].1[i])
    ensures forall c: Category, i :: 0 <= i < |FieldItems(ms, c)| ==> Linked(r, key, c, FieldItems(ms, c)[i])
  {
    forall c: Category, i | 0 <= i < |FieldItems(ms, c)|
      ensures Linked(r, key, c, FieldItems(ms, c)[i])
    {
      assert Listed(ms)[Position(c)] == (c, FieldItems(ms, c));
    }
  }

  /** A completed upsert is the merge of all five listed groups. */
  lemma UpsertCompletedStore(st: Store<JsonValue>, data: JsonValue, text: string,
                             hash: string -> Digest, onMatchSet: bool)
    requires data.JObj? && AllIterable(data.members)
    ensures Upsert(st, data, text, hash, onMatchSet)
         == Completed(Merge(st, hash(text), Props(data.members, text), Listed(data.members), onMatchSet))
  {
    var ms := data.members;
    var gs := FieldGroups(ms, Categories);
    FieldGroupsPrefix(ms);
    assert |gs| == |Categories|;
    assert gs == Listed(ms);
  }

  /** Merging the five listed groups of a reply links every item. */
  lemma MergeListed(st: Store<JsonValue>, key: Digest, props: CandidateProps<JsonValue>,
                    ms: seq<(string, JsonValue)>, onMatchSet: bool)
    ensures var r := Merge(st, key, props, Listed(ms), onMatchSet);
            && Grows(st, r)
            && (key !in st.candidates || onMatchSet ==> r.candidates[key] == props)
            && forall c: Category, i :: 0 <= i < |FieldItems(ms, c)| ==> Linked(r, key, c, FieldItems(ms, c)[i])
  {
    var r := Merge(st, key, props, Listed(ms), onMatchSet);
    MergeAdds(st, key, props, Listed(ms), onMatchSet);
    MergeLinksEveryItem(st, key, props, Listed(ms), onMatchSet);
    ListedLinked(r, key, ms);
  }

  /** A completed upsert stores the name and every item exactly as the
      reply gave them: no case folding, so "Python" and "python" are two
      Skill nodes. Nothing present before is lost. */
  lemma UpsertVerbatim(st: Store<JsonValue>, data: JsonValue, text: string,
                       hash: string -> Digest, onMatchSet: bool)
    requires data.JObj? && AllIterable(data.members)
    ensures var r := Upsert(st, data, text, hash, onMatchSet).value;
            && Grows(st, r)
            && (hash(text) !in st.candidates || onMatchSet ==>
                  r.candidates[hash(text)] == Props(data.members, text))
            && forall c: Category, i :: 0 <= i < |FieldItems(data.members, c)| ==>
                 Linked(r, hash(text), c, FieldItems(data.members, c)[i])
  {
    UpsertCompletedStore(st, data, text, hash, onMatchSet);
    MergeListed(st, hash(text), Props(data.members, text), data.members, onMatchSet);
  }

  /** Crashed or not, the store only grows, and only by the candidate and
      the nodes of the reply's own items. */
  lemma UpsertOnlyAdds(st: Store<JsonValue>, data: JsonValue, text: string,
                       hash: string -> Digest, onMatchSet: bool)
    ensures var r := Upsert(st, data, text, hash, onMatchSet).value;
            && Grows(st, r)
            && r.candidates.Keys <= st.candidates.Keys + {hash(text)}
            && (forall n :: n in r.nodes && n !in st.nodes ==>
                  n.name in FieldItems(data.members, n.category))
  {
    if data.JObj? {
      var ms := data.members;
      var gs := FieldGroups(ms, Categories);
      var props := Props(ms, text);
      MergeAdds(st, hash(text), props, gs, onMatchSet);
      forall n | n in NodesOf(gs)
        ensures n.name in FieldItems(ms, n.category)
      {
        var g, x :| g in gs && x in g.1 && n == AttrNode(g.0, x);
      }
    }
  }

  /** Upserting the same reply and text again gives the same outcome and
      the same store, whether or not the first run crashed. */
  lemma UpsertIdempotent(st: Store<JsonValue>, data: JsonValue, text: string,
                         hash: string -> Digest, onMatchSet: bool)
    ensures var r := Upsert(st, data, text, hash, onMatchSet);
            Upsert(r.value, data, text, hash, onMatchSet) == r
  {
    if data.JObj? {
      var ms := data.members;
      MergeIdempotent(st, hash(text), Props(ms, text),
                      FieldGroups(ms, Categories), onMatchSet);
    }
  }

  lemma UpsertKeepsValid(st: Store<JsonValue>, data: JsonValue, text: string,
                         hash: string -> Digest, onMatchSet: bool)
    requires Valid(st, hash)
    ensures Valid(Upsert(st, data, text, hash, onMatchSet).value, hash)
  {
    if data.JObj? {
      var ms := data.members;
      MergeKeepsValid(st, hash, Props(ms, text),
                      FieldGroups(ms, Categories), onMatchSet);
    }
  }

  /** main4.py lines 118-125: no query for an empty input, otherwise the exact,
      case-sensitive single-skill query. */
  function Search(st: Store<JsonValue>, q: string): (r: Option<set<Digest>>)
    ensures r.None? <==> q == []
  {
    if q == [] then None else Some(SingleMatch(st, JStr(q)))
  }

  /** The candidates found are exactly those with a HAS_SKILL edge to the
      Skill node whose name is the query string itself. */
  lemma SearchSpec(st: Store<JsonValue>, q: string, key: Digest)
    requires q != []
    ensures key in Search(st, q).value <==> key in st.candidates && HasSkill(st, key, JStr(q))
  {
    SingleMatchSpec(st, JStr(q), key);
  }

  /** The reply `{"skills": ["Python"]}`. */
  const PythonReply: seq<(string, JsonValue)> := [("skills", JArr([JStr("Python")]))]

  lemma PythonReplyItems()
    ensures AllIterable(PythonReply)
    ensures forall c: Category :: FieldItems(PythonReply, c) == if c == Skill then [JStr("Python")] else []
  {
    LookupLast(PythonReply, 0);
    forall c: Category | c != Skill
      ensures Lookup(PythonReply, Field(c)).None?
    {
      assert !HasKey(PythonReply, Field(c));
    }
  }

  /** A query naming a Skill node the store lacks finds nobody. */
  lemma SearchMissingSkill(st: Store<JsonValue>, q: string)
    requires q != [] && AttrNode(Skill, JStr(q)) !in st.nodes
    ensures Search(st, q) == Some({})
  {
    forall key | key in Search(st, q).value
      ensures false
    {
      SearchSpec(st, q, key);
    }
    assert Search(st, q).value == {};
  }

  /** A query naming a skill of the only candidate finds that candidate. */
  lemma SearchOnlyCandidate(st: Store<JsonValue>, q: string, key: Digest)
    requires q != [] && st.candidates.Keys == {key} && Linked(st, key, Skill, JStr(q))
    ensures Search(st, q) == Some({key})
  {
    forall k
      ensures k in Search(st, q).value <==> k == key
    {
      SearchSpec(st, q, k);
    }
    assert Search(st, q).value == {key};
  }

  /** Search over a one-candidate store whose nodes are exactly the items
      of a reply. */
  lemma SearchOneResume(r: Store<JsonValue>, key: Digest, ms: seq<(string, JsonValue)>, q: string)
    requires q != [] && r.candidates.Keys == {key}
    requires forall i :: 0 <= i < |FieldItems(ms, Skill)| ==> Linked(r, key, Skill, FieldItems(ms, Skill)[i])
    requires forall n :: n in r.nodes ==> n.name in FieldItems(ms, n.category)
    ensures Search(r, q) == Some(if JStr(q) in FieldItems(ms, Skill) then {key} else {})
  {
    var items := FieldItems(ms, Skill);
    if JStr(q) in items {
      var i :| 0 <= i < |items| && items[i] == JStr(q);
      SearchOnlyCandidate(r, q, key);
    } else {
      assert AttrNode(Skill, JStr(q)) !in r.nodes;
      SearchMissingSkill(r, q);
    }
  }

  /** Merging a reply into the empty store gives one candidate, linked to
      every item, and no node beyond the items. */
  lemma MergeFresh(key: Digest, props: CandidateProps<JsonValue>, ms: seq<(string, JsonValue)>,
                   onMatchSet: bool)
    ensures var r := Merge(Empty(), key, props, Listed(ms), onMatchSet);
            && r.candidates.Keys == {key}
            && (forall i :: 0 <= i < |FieldItems(ms, Skill)| ==> Linked(r, key, Skill, FieldItems(ms, Skill)[i]))
            && (forall n :: n in r.nodes ==> n.name in FieldItems(ms, n.category))
  {
    var gs := Listed(ms);
    MergeAdds(Empty(), key, props, gs, onMatchSet);
    MergeListed(Empty(), key, props, ms, onMatchSet);
    forall n | n in NodesOf(gs)
      ensures n.name in FieldItems(ms, n.category)
    {
      var g, x :| g in gs && x in g.1 && n == AttrNode(g.0, x);
    }
  }

  /** Search after one upsert into an empty store: a non-empty query finds
      the resume exactly when the query string itself is one of its listed
      skills, compared exactly, so listing "Python" is not found by
      "python". */
  lemma SearchIsExact(data: JsonValue, text: string, hash: string -> Digest,
                      onMatchSet: bool, q: string)
    requires data.JObj? && AllIterable(data.members) && q != []
    ensures var r := Upsert(Empty(), data, text, hash, onMatchSet);
            && r.Completed?
            && Search(r.value, q) == Some(if JStr(q) in FieldItems(data.members, Skill) then {hash(text)} else {})
  {
    var ms := data.members;
    UpsertCompletedStore(Empty(), data, text, hash, onMatchSet);
    MergeFresh(hash(text), Props(ms, text), ms, onMatchSet);
    SearchOneResume(Merge(Empty(), hash(text), Props(ms, text), Listed(ms), onMatchSet), hash(text), ms, q);
  }

  /** The sample reply `{"skills": ["Python"]}` is found by "Python" and not
      by "python". */
  lemma SearchIsCaseSensitive(data: JsonValue, text: string, hash: string -> Digest, onMatchSet: bool)
    requires data == JObj(PythonReply)
    ensures var r := Upsert(Empty(), data, text, hash, onMatchSet);
            && Search(r.value, "Python") == Some({hash(text)})
            && Search(r.value, "python") == Some({})
  {
    PythonReplyItems();
    assert FieldItems(PythonReply, Skill) == [JStr("Python")];
    SearchIsExact(data, text, hash, onMatchSet, "Python");
    SearchIsExact(data, text, hash, onMatchSet, "python");
  }
}
