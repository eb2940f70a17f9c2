/** `add_candidate_to_neo4j` of the word-search variant: the candidate
    name and every item are lower-cased (again) before being merged. */
module WordSearchGraph {
  import opened Text
  import opened Graph
  import opened WordSearchProfile

  /** `[x.lower() for x in xs]` on strings. */
  function LowerAll(xs: seq<string>): seq<string> {
    seq(|xs|, i requires 0 <= i < |xs| => Lower(xs[i]))
  }

  /** The five (label, items) pairs of the loop, in the source's order. */
  function Groups(p: Profile): seq<Group<string>> {
    [(Skill, LowerAll(p.skills)),
     (Education, LowerAll(p.education)),
     (Project, LowerAll(p.projects)),
     (Experience, LowerAll(p.experience)),
     (Certification, LowerAll(p.certifications))]
  }

  lemma GroupOf(p: Profile, c: Category)
    ensures Groups(p)[Position(c)] == (c, LowerAll(Items(p, c)))
  {
  }

  function Upsert(st: Store<string>, p: Profile, text: string,
                  hash: string -> Digest, onMatchSet: bool): Store<string> {
    Merge(st, hash(text), CandidateProps(Lower(p.name), text), Groups(p), onMatchSet)
  }

  /** Upsert keeps everything already stored, adds the candidate keyed by
      the digest of the text, and links it to the lower-cased form of every
      item under its category's relationship. */
  lemma UpsertLinksEveryItem(st: Store<string>, p: Profile, text: string,
                             hash: string -> Digest, onMatchSet: bool)
    ensures var r := Upsert(st, p, text, hash, onMatchSet);
            && Grows(st, r)
            && hash(text) in r.candidates
            && forall c: Category, i :: 0 <= i < |Items(p, c)| ==>
                 Linked(r, hash(text), c, Lower(Items(p, c)[i]))
  {
    var key := hash(text);
    var props := CandidateProps(Lower(p.name), text);
    MergeAdds(st, key, props, Groups(p), onMatchSet);
    MergeLinksEveryItem(st, key, props, Groups(p), onMatchSet);
    forall c: Category, i | 0 <= i < |Items(p, c)|
      ensures Linked(Upsert(st, p, text, hash, onMatchSet), key, c, Lower(Items(p, c)[i]))
    {
      GroupOf(p, c);
      assert Groups(p)[Position(c)].1[i] == Lower(Items(p, c)[i]);
    }
  }

  /** `name` is the lower-cased form of an item of category `c`. */
  predicate ListsItem(p: Profile, c: Category, name: string) {
    exists i :: 0 <= i < |Items(p, c)| && name == Lower(Items(p, c)[i])
  }

  /** Membership in a group of `Groups` is membership in the profile. */
  lemma GroupMember(p: Profile, g: Group<string>, x: string)
    requires g in Groups(p) && x in g.1
    ensures ListsItem(p, g.0, x)
  {
    GroupOf(p, g.0);
    var i :| 0 <= i < |g.1| && g.1[i] == x;
    assert x == Lower(Items(p, g.0)[i]);
  }

  /** Conversely, upsert adds no candidate but the text's and no node but
      those of the profile's items. */
  lemma UpsertAddsOnlyItemNodes(st: Store<string>, p: Profile, text: string,
                                hash: string -> Digest, onMatchSet: bool)
    ensures var r := Upsert(st, p, text, hash, onMatchSet);
            && r.candidates.Keys == st.candidates.Keys + {hash(text)}
            && forall n :: n in r.nodes && n !in st.nodes ==> ListsItem(p, n.category, n.name)
  {
    MergeAdds(st, hash(text), CandidateProps(Lower(p.name), text), Groups(p), onMatchSet);
    forall n | n in Upsert(st, p, text, hash, onMatchSet).nodes && n !in st.nodes
      ensures ListsItem(p, n.category, n.name)
    {
      var g, x :| g in Groups(p) && x in g.1 && n == AttrNode(g.0, x);
      GroupMember(p, g, x);
    }
  }

  /** Every edge upsert adds starts at the new candidate and ends at an
      item of the edge's own category. */
  lemma UpsertAddsOnlyItemEdges(st: Store<string>, p: Profile, text: string,
                                hash: string -> Digest, onMatchSet: bool)
    ensures var r := Upsert(st, p, text, hash, onMatchSet);
            forall e :: e in r.edges && e !in st.edges ==>
              && e.from == hash(text) && e.rel == RelType(e.to.category)
              && ListsItem(p, e.to.category, e.to.name)
  {
    var key := hash(text);
    MergeAdds(st, key, CandidateProps(Lower(p.name), text), Groups(p), onMatchSet);
    forall e | e in Upsert(st, p, text, hash, onMatchSet).edges && e !in st.edges
      ensures && e.from == key && e.rel == RelType(e.to.category)
              && ListsItem(p, e.to.category, e.to.name)
    {
      var g, x :| g in Groups(p) && x in g.1 && e == Edge(key, RelType(g.0), AttrNode(g.0, x));
      GroupMember(p, g, x);
    }
  }

  /** Upserting the same profile and text twice gives the store one upsert
      gives. */
  lemma UpsertIdempotent(st: Store<string>, p: Profile, text: string,
                         hash: string -> Digest, onMatchSet: bool)
    ensures var r := Upsert(st, p, text, hash, onMatchSet);
            Upsert(r, p, text, hash, onMatchSet) == r
  {
    MergeIdempotent(st, hash(text), CandidateProps(Lower(p.name), text), Groups(p), onMatchSet);
  }

  lemma UpsertKeepsValid(st: Store<string>, p: Profile, text: string,
                         hash: string -> Digest, onMatchSet: bool)
    requires Valid(st, hash)
    ensures Valid(Upsert(st, p, text, hash, onMatchSet), hash)
  {
    MergeKeepsValid(st, hash, CandidateProps(Lower(p.name), text), Groups(p), onMatchSet);
  }

  /** On a normalised profile the second lower-casing changes nothing: the
      stored name and node names are the profile's own strings. */
  lemma UpsertOfLowerProfile(st: Store<string>, p: Profile, text: string,
                             hash: string -> Digest, onMatchSet: bool)
    requires AllLower(p)
    ensures var r := Upsert(st, p, text, hash, onMatchSet);
            && (hash(text) !in st.candidates || onMatchSet ==>
                  r.candidates[hash(text)] == CandidateProps(p.name, text))
            && forall c: Category, i :: 0 <= i < |Items(p, c)| ==>
                 Linked(r, hash(text), c, Items(p, c)[i])
  {
    UpsertLinksEveryItem(st, p, text, hash, onMatchSet);
    LowerOfLower(p.name);
    forall c: Category, i | 0 <= i < |Items(p, c)|
      ensures Lower(Items(p, c)[i]) == Items(p, c)[i]
    {
      assert EachLower(Items(p, c)) by {
        match c
        case Skill => case Education => case Project =>
        case Experience => case Certification =>
      }
      LowerOfLower(Items(p, c)[i]);
    }
  }

  /** Two resumes that list the same skill, in any letter case, end up
      sharing one Skill node, each linked to it by a HAS_SKILL edge; the two
      edges are distinct whenever the two texts have distinct digests. */
  lemma SharedSkillNode(st: Store<string>, p1: Profile, t1: string, i1: int,
                        p2: Profile, t2: string, i2: int,
                        hash: string -> Digest, onMatchSet: bool)
    requires 0 <= i1 < |p1.skills| && 0 <= i2 < |p2.skills|
    requires Lower(p1.skills[i1]) == Lower(p2.skills[i2])
    ensures var r := Upsert(Upsert(st, p1, t1, hash, onMatchSet), p2, t2, hash, onMatchSet);
            var n := Lower(p1.skills[i1]);
            && Linked(r, hash(t1), Skill, n)
            && Linked(r, hash(t2), Skill, n)
            && (hash(t1) != hash(t2) ==>
                  Edge(hash(t1), RelType(Skill), AttrNode(Skill, n))
                  != Edge(hash(t2), RelType(Skill), AttrNode(Skill, n)))
  {
    var r1 := Upsert(st, p1, t1, hash, onMatchSet);
    UpsertLinksEveryItem(st, p1, t1, hash, onMatchSet);
    UpsertLinksEveryItem(r1, p2, t2, hash, onMatchSet);
    assert Items(p1, Skill)[i1] == p1.skills[i1];
    assert Items(p2, Skill)[i2] == p2.skills[i2];
  }

  /** A string listed under two categories gives two distinct nodes, one
      per label, both linked from the candidate. */
  lemma SameNameTwoLabels(st: Store<string>, p: Profile, text: string,
                          c1: Category, i: int, c2: Category, j: int,
                          hash: string -> Digest, onMatchSet: bool)
    requires c1 != c2 && 0 <= i < |Items(p, c1)| && 0 <= j < |Items(p, c2)|
    requires Lower(Items(p, c1)[i]) == Lower(Items(p, c2)[j])
    ensures var r := Upsert(st, p, text, hash, onMatchSet);
            var x := Lower(Items(p, c1)[i]);
            && AttrNode(c1, x) != AttrNode(c2, x)
            && Linked(r, hash(text), c1, x)
            && Linked(r, hash(text), c2, x)
  {
    UpsertLinksEveryItem(st, p, text, hash, onMatchSet);
  }
}
