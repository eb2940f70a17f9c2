/** The meaning of the two Cypher skill queries over the abstract store. */
module Match {
  import opened Collections
  import opened Graph

  /** Candidate `key` has a HAS_SKILL edge to the Skill node named `name`. */
  predicate HasSkill<N(==)>(st: Store<N>, key: Digest, name: N) {
    Linked(st, key, Skill, name)
  }

  /** `COUNT(DISTINCT s.name)` for candidate `key`: the distinct terms that
      name one of its skills. */
  function MatchedSkills<N(==)>(st: Store<N>, key: Digest, terms: seq<N>): set<N> {
    set t | t in terms && HasSkill(st, key, t)
  }

  /** The multi-skill query of the word-search variant: the candidates with
      a HAS_SKILL edge to a Skill node named by some term, kept when the
      number of distinct matched names equals the length of the term list.
      A candidate with no matching skill yields no row at all, hence the
      positive count. */
  function MatchAll<N(==)>(st: Store<N>, terms: seq<N>): set<Digest> {
    set key | key in st.candidates.Keys
              && 0 < |MatchedSkills(st, key, terms)| == |terms|
  }

  /** A candidate is returned exactly when it has every term as a skill and
      the term list is non-empty and free of repeats: a repeated term makes
      the distinct count fall short of the list length. */
  lemma MatchAllSpec<N>(st: Store<N>, terms: seq<N>, key: Digest)
    ensures key in MatchAll(st, terms) <==>
              && key in st.candidates
              && |terms| > 0
              && Distinct(terms)
              && forall i :: 0 <= i < |terms| ==> HasSkill(st, key, terms[i])
  {
    var m := MatchedSkills(st, key, terms);
    assert m <= ToSet(terms);
    SubsetCard(m, ToSet(terms));
    ToSetCard(terms);
    if key in MatchAll(st, terms) {
      assert m == ToSet(terms);
      forall i | 0 <= i < |terms|
        ensures HasSkill(st, key, terms[i])
      {
        assert terms[i] in ToSet(terms);
      }
    }
    if && key in st.candidates && |terms| > 0 && Distinct(terms)
       && forall i :: 0 <= i < |terms| ==> HasSkill(st, key, terms[i])
    {
      assert m == ToSet(terms);
      assert terms[0] in m;
    }
  }

  /** A term list with a repeat matches nobody. */
  lemma RepeatedTermMatchesNobody<N>(st: Store<N>, terms: seq<N>, i: int, j: int)
    requires 0 <= i < j < |terms| && terms[i] == terms[j]
    ensures MatchAll(st, terms) == {}
  {
    forall key | key in MatchAll(st, terms)
      ensures false
    {
      MatchAllSpec(st, terms, key);
    }
  }

  /** The rows of the single-skill query of the basic variant: one row per
      HAS_SKILL edge from a candidate to the Skill node whose name is the
      query. Since edges are merged by key, no candidate has two rows. */
  function SkillPaths<N(==)>(st: Store<N>, q: N): (paths: set<Edge<N>>)
    ensures forall e1, e2 :: e1 in paths && e2 in paths && e1.from == e2.from ==> e1 == e2
  {
    set e | e in st.edges && e.from in st.candidates
            && e.rel == RelType(Skill) && e.to == AttrNode(Skill, q) && e.to in st.nodes
  }

  /** The candidates in the result of the single-skill query. */
  function SingleMatch<N(==)>(st: Store<N>, q: N): set<Digest> {
    set e | e in SkillPaths(st, q) :: e.from
  }

  /** The single-skill query returns exactly the candidates with a HAS_SKILL
      edge to the Skill node whose name equals the query, and it is the
      multi-skill query on a one-term list. */
  lemma SingleMatchSpec<N>(st: Store<N>, q: N, key: Digest)
    ensures key in SingleMatch(st, q) <==> key in st.candidates && HasSkill(st, key, q)
    ensures key in SingleMatch(st, q) <==> key in MatchAll(st, [q])
  {
    MatchAllSpec(st, [q], key);
    if key in st.candidates && HasSkill(st, key, q) {
      assert Edge(key, RelType(Skill), AttrNode(Skill, q)) in SkillPaths(st, q);
    }
  }

  /** The `RETURN c.name, c.content` rows of a result. */
  function Rows<N(==)>(st: Store<N>, keys: set<Digest>): set<(N, string)> {
    set k | k in keys && k in st.candidates :: (st.candidates[k].name, st.candidates[k].content)
  }

  /** In a valid store a row determines its candidate, so `RETURN DISTINCT`
      on (name, content) merges no two candidates of a result. */
  lemma RowsIdentifyCandidates<N>(st: Store<N>, hash: string -> Digest, keys: set<Digest>)
    requires Valid(st, hash)
    ensures forall row :: row in Rows(st, keys) ==>
              hash(row.1) in keys && hash(row.1) in st.candidates
              && st.candidates[hash(row.1)] == CandidateProps(row.0, row.1)
    ensures forall k :: k in keys && k in st.candidates ==>
              (st.candidates[k].name, st.candidates[k].content) in Rows(st, keys)
  {
  }

  /** Queries on the empty store return nothing. */
  lemma EmptyMatchesNobody<N>(terms: seq<N>, q: N)
    ensures MatchAll(Empty<N>(), terms) == {}
    ensures SingleMatch(Empty<N>(), q) == {}
  {
  }
}
