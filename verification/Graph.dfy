/** The property graph both applications keep in Neo4j, as immutable sets.
    Candidate nodes are keyed by the digest of their resume text, attribute
    nodes by (label, name), edges by (candidate, relationship type, node).
    Every write is a merge: insert when absent, otherwise reuse. The type
    `N` of names is `string` in the word-search variant and a raw JSON value
    in the basic one, which stores whatever the extractor returned. */
module Graph {

  /** The hex digest of a resume's text. The hash function is a parameter of
      every operation that needs it and is not assumed injective. */
  type Digest = string

  /** The five attribute labels, each with its relationship type. */
  datatype Category = Skill | Education | Project | Experience | Certification

  /** The order in which `add_candidate_to_neo4j` visits the categories. */
  const Categories: seq<Category> := [Skill, Education, Project, Experience, Certification]

  /** The position of category `c` in `Categories`, and so in the list of
      groups an upsert merges. */
  function Position(c: Category): (k: nat)
    ensures k < |Categories| && Categories[k] == c
  {
    match c
    case Skill => 0
    case Education => 1
    case Project => 2
    case Experience => 3
    case Certification => 4
  }

  /** The relationship type linking a candidate to a node of category `c`. */
  function RelType(c: Category): string {
    match c
    case Skill => "HAS_SKILL"
    case Education => "HAS_EDUCATION"
    case Project => "HAS_PROJECT"
    case Experience => "HAS_EXPERIENCE"
    case Certification => "HAS_CERTIFICATION"
  }

  /** The profile key holding the item list of category `c`. */
  function Field(c: Category): string {
    match c
    case Skill => "skills"
    case Education => "education"
    case Project => "projects"
    case Experience => "experience"
    case Certification => "certifications"
  }

  /** The `name` and `content` properties of a Candidate node. */
  datatype CandidateProps<N> = CandidateProps(name: N, content: string)

  datatype AttrNode<N> = AttrNode(category: Category, name: N)

  datatype Edge<N> = Edge(from: Digest, rel: string, to: AttrNode<N>)

  datatype Store<N(==)> = Store(
    candidates: map<Digest, CandidateProps<N>>,
    nodes: set<AttrNode<N>>,
    edges: set<Edge<N>>)

  /** One attribute list of a profile: a category and its item names. */
  type Group<N> = (Category, seq<N>)

  function Empty<N(==)>(): Store<N> {
    Store(map[], {}, {})
  }

  /** Nothing present in `a` is missing from `b`. */
  predicate Grows<N(==)>(a: Store<N>, b: Store<N>) {
    && a.candidates.Keys <= b.candidates.Keys
    && a.nodes <= b.nodes
    && a.edges <= b.edges
  }

  /** Candidate `key` is linked to the `c` node named `name`. */
  predicate Linked<N(==)>(st: Store<N>, key: Digest, c: Category, name: N) {
    && AttrNode(c, name) in st.nodes
    && Edge(key, RelType(c), AttrNode(c, name)) in st.edges
  }

  /** The shape every store built by merges has: each candidate sits under
      the digest of its own content, and each edge joins an existing
      candidate to an existing node with the type of the node's category. */
  ghost predicate Valid<N>(st: Store<N>, hash: string -> Digest) {
    && (forall k :: k in st.candidates ==> hash(st.candidates[k].content) == k)
    && (forall e :: e in st.edges ==>
          e.from in st.candidates && e.to in st.nodes && e.rel == RelType(e.to.category))
  }

  /** The attribute nodes a list of groups refers to. */
  function NodesOf<N(==)>(groups: seq<Group<N>>): set<AttrNode<N>> {
    set g, x | g in groups && x in g.1 :: AttrNode(g.0, x)
  }

  /** The edges from candidate `key` a list of groups asks for. */
  function EdgesOf<N(==)>(key: Digest, groups: seq<Group<N>>): set<Edge<N>> {
    set g, x | g in groups && x in g.1 :: Edge(key, RelType(g.0), AttrNode(g.0, x))
  }

  /** Splitting off the first item of a group. */
  lemma ItemsCons<N>(key: Digest, c: Category, items: seq<N>)
    requires items != []
    ensures NodesOf([(c, items)]) == {AttrNode(c, items[0])} + NodesOf([(c, items[1..])])
    ensures EdgesOf(key, [(c, items)])
         == {Edge(key, RelType(c), AttrNode(c, items[0]))} + EdgesOf(key, [(c, items[1..])])
  {
    assert forall x :: x in items <==> x == items[0] || x in items[1..];
  }

  /** Splitting off the first group. */
  lemma GroupsCons<N>(key: Digest, groups: seq<Group<N>>)
    requires groups != []
    ensures NodesOf(groups) == NodesOf([groups[0]]) + NodesOf(groups[1..])
    ensures EdgesOf(key, groups) == EdgesOf(key, [groups[0]]) + EdgesOf(key, groups[1..])
  {
    assert forall g :: g in groups <==> g == groups[0] || g in groups[1..];
  }

  /** `graph.merge(candidate, "Candidate", "content_hash")`. A new key gets
      `props`; for an existing key the store's on-match behaviour is left
      open: `onMatchSet` chooses between keeping and overwriting. */
  function MergeCandidate<N(==)>(st: Store<N>, key: Digest, props: CandidateProps<N>,
                                 onMatchSet: bool): (r: Store<N>)
    ensures r.nodes == st.nodes && r.edges == st.edges
    ensures r.candidates.Keys == st.candidates.Keys + {key}
    ensures forall k :: k in st.candidates && k != key ==> r.candidates[k] == st.candidates[k]
    ensures key !in st.candidates || onMatchSet ==> r.candidates[key] == props
    ensures key in st.candidates && !onMatchSet ==> r.candidates[key] == st.candidates[key]
  {
    if key in st.candidates && !onMatchSet then st
    else st.(candidates := st.candidates[key := props])
  }

  /** One pass of the inner loop: merge the node, then merge the edge. */
  function MergeItem<N(==)>(st: Store<N>, key: Digest, c: Category, item: N): Store<N> {
    var node := AttrNode(c, item);
    st.(nodes := st.nodes + {node}, edges := st.edges + {Edge(key, RelType(c), node)})
  }

  /** The inner loop over the items of one category. */
  function MergeItems<N(==)>(st: Store<N>, key: Digest, c: Category, items: seq<N>): (r: Store<N>)
    ensures r.candidates == st.candidates
    ensures r.nodes == st.nodes + NodesOf([(c, items)])
    ensures r.edges == st.edges + EdgesOf(key, [(c, items)])
    decreases |items|
  {
    if items == [] then st
    else
      var r := MergeItems(MergeItem(st, key, c, items[0]), key, c, items[1..]);
      ItemsCons(key, c, items);
      r
  }

  /** The outer loop over the categories, in order. */
  function MergeGroups<N(==)>(st: Store<N>, key: Digest, groups: seq<Group<N>>): (r: Store<N>)
    ensures r.candidates == st.candidates
    ensures r.nodes == st.nodes + NodesOf(groups)
    ensures r.edges == st.edges + EdgesOf(key, groups)
    decreases |groups|
  {
    if groups == [] then st
    else
      var r := MergeGroups(MergeItems(st, key, groups[0].0, groups[0].1), key, groups[1..]);
      GroupsCons(key, groups);
      r
  }

  /** Merge the candidate, then every group: the body shared by both
      variants of `add_candidate_to_neo4j`. */
  function Merge<N(==)>(st: Store<N>, key: Digest, props: CandidateProps<N>,
                        groups: seq<Group<N>>, onMatchSet: bool): Store<N> {
    MergeGroups(MergeCandidate(st, key, props, onMatchSet), key, groups)
  }

  /** Merging adds the candidate key and exactly the nodes and edges the
      groups ask for; nothing present before is lost. */
  lemma MergeAdds<N>(st: Store<N>, key: Digest, props: CandidateProps<N>,
                         groups: seq<Group<N>>, onMatchSet: bool)
    ensures var r := Merge(st, key, props, groups, onMatchSet);
            && Grows(st, r)
            && r.candidates.Keys == st.candidates.Keys + {key}
            && r.nodes == st.nodes + NodesOf(groups)
            && r.edges == st.edges + EdgesOf(key, groups)
  {
  }

  /** Merging the same candidate and groups a second time changes nothing. */
  lemma MergeIdempotent<N>(st: Store<N>, key: Digest, props: CandidateProps<N>,
                               groups: seq<Group<N>>, onMatchSet: bool)
    ensures var r := Merge(st, key, props, groups, onMatchSet);
            Merge(r, key, props, groups, onMatchSet) == r
  {
    var r := Merge(st, key, props, groups, onMatchSet);
    var r1 := MergeCandidate(r, key, props, onMatchSet);
    assert r1.candidates == r.candidates;
  }

  /** Every item of every group ends up linked from the candidate. */
  lemma MergeLinksEveryItem<N>(st: Store<N>, key: Digest, props: CandidateProps<N>,
                                   groups: seq<Group<N>>, onMatchSet: bool)
    ensures var r := Merge(st, key, props, groups, onMatchSet);
            forall k, i :: 0 <= k < |groups| && 0 <= i < |groups[k].1| ==>
              Linked(r, key, groups[k].0, groups[k].1[i])
  {
    var r := Merge(st, key, props, groups, onMatchSet);
    forall k, i | 0 <= k < |groups| && 0 <= i < |groups[k].1|
      ensures Linked(r, key, groups[k].0, groups[k].1[i])
    {
      var g := groups[k];
      assert g in groups && g.1[i] in g.1;
    }
  }

  /** Merging a candidate under the digest of its own content keeps a store
      valid. */
  lemma MergeKeepsValid<N>(st: Store<N>, hash: string -> Digest, props: CandidateProps<N>,
                               groups: seq<Group<N>>, onMatchSet: bool)
    requires Valid(st, hash)
    ensures Valid(Merge(st, hash(props.content), props, groups, onMatchSet), hash)
  {
    var key := hash(props.content);
    var r := Merge(st, key, props, groups, onMatchSet);
    forall e | e in r.edges
      ensures e.from in r.candidates && e.to in r.nodes && e.rel == RelType(e.to.category)
    {
      if e !in st.edges {
        var g, x :| g in groups && x in g.1 && e == Edge(key, RelType(g.0), AttrNode(g.0, x));
      }
    }
  }

  /** The empty store is valid for every hash function. */
  lemma EmptyValid<N>(hash: string -> Digest)
    ensures Valid(Empty<N>(), hash)
  {
  }
}
