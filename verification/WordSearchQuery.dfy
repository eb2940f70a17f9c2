/** The search box of the word-search variant: the comma-separated input
    becomes a list of terms, and a non-empty list runs the multi-skill
    query. */
module WordSearchQuery {
  import opened Wrappers
  import opened Collections
  import opened Text
  import opened Graph
  import opened Match

  /** A term as the parser produces it: non-empty, lower case, without
      surrounding whitespace and without a comma. */
  predicate ValidTerm(t: string) {
    t != [] && IsLower(t) && Clean(t) && ',' !in t
  }

  /** Stripping and lower-casing a comma-free piece that is not blank gives
      a valid term. */
  lemma PieceTerm(piece: string)
    requires ',' !in piece && Strip(piece) != []
    ensures ValidTerm(Lower(Strip(piece)))
  {
    var t := Strip(piece);
    StripKeepsOut(piece, ',');
    LowerKeepsNonLetter(t, ',');
    LowerKeepsClean(t);
  }

  /** `[s.strip().lower() for s in pieces if s.strip()]`. */
  function Terms(pieces: seq<string>): seq<string>
    decreases |pieces|
  {
    if pieces == [] then []
    else
      var t := Strip(pieces[0]);
      if t == [] then Terms(pieces[1..]) else [Lower(t)] + Terms(pieces[1..])
  }

  /** Every term of the list is valid. */
  predicate AllValid(ts: seq<string>)
    decreases |ts|
  {
    ts == [] || (ValidTerm(ts[0]) && AllValid(ts[1..]))
  }

  /** `AllValid` as a statement about each position. */
  lemma {:induction false} AllValidAt(ts: seq<string>, i: int)
    requires AllValid(ts) && 0 <= i < |ts|
    ensures ValidTerm(ts[i])
    decreases |ts|
  {
    if i > 0 {
      AllValidAt(ts[1..], i - 1);
    }
  }

  /** Comma-free pieces give at most as many terms, each one valid. */
  lemma {:induction false} TermsValid(pieces: seq<string>)
    requires forall i :: 0 <= i < |pieces| ==> ',' !in pieces[i]
    ensures |Terms(pieces)| <= |pieces|
    ensures AllValid(Terms(pieces))
    decreases |pieces|
  {
    if pieces != [] {
      var rest := pieces[1..];
      assert forall i :: 0 <= i < |rest| ==> rest[i] == pieces[i + 1];
      TermsValid(rest);
      if Strip(pieces[0]) != [] {
        PieceTerm(pieces[0]);
        var ts := Terms(pieces);
        assert ts == [Lower(Strip(pieces[0]))] + Terms(rest);
        assert ts[1..] == Terms(rest);
      }
    }
  }

  /** with_word_search_only.py lines 131-132: the terms of the search input. */
  function ParseTerms(input: string): (ts: seq<string>)
    ensures AllValid(ts)
  {
    if input == [] then []
    else
      TermsValid(Split(input, ','));
      Terms(Split(input, ','))
  }

  /** The `if user_skills_input` guard changes nothing: the empty input
      splits into one blank piece, which is dropped. */
  lemma EmptyInputGuardRedundant(input: string)
    ensures ParseTerms(input) == Terms(Split(input, ','))
  {
  }

  /** Terms that are already valid, joined with commas, parse back to
      themselves, in the same order; in particular the empty list comes
      from the empty input. */
  lemma {:induction false} ParseJoin(ts: seq<string>)
    requires forall i :: 0 <= i < |ts| ==> ValidTerm(ts[i])
    ensures ParseTerms(Join(ts, ',')) == ts
  {
    if ts != [] {
      SplitJoin(ts, ',');
      assert Join(ts, ',') != [] by {
        if |ts| > 1 {
          assert |Join(ts, ',')| >= |ts[0]|;
        }
      }
      TermsOfValid(ts);
    }
  }

  /** Valid terms pass through `Terms` unchanged. */
  lemma {:induction false} TermsOfValid(ts: seq<string>)
    requires forall i :: 0 <= i < |ts| ==> ValidTerm(ts[i])
    ensures Terms(ts) == ts
    decreases |ts|
  {
    if ts != [] {
      var rest := ts[1..];
      assert forall i :: 0 <= i < |rest| ==> ValidTerm(rest[i]) by {
        forall i | 0 <= i < |rest|
          ensures ValidTerm(rest[i])
        {
          assert rest[i] == ts[i + 1];
        }
      }
      TermsOfValid(rest);
      TermsValidHead(ts);
      assert [ts[0]] + rest == ts;
    }
  }

  /** A valid first piece is kept as the first term. */
  lemma TermsValidHead(pieces: seq<string>)
    requires pieces != [] && ValidTerm(pieces[0])
    ensures Terms(pieces) == [pieces[0]] + Terms(pieces[1..])
  {
    LowerOfLower(pieces[0]);
  }

  /** A piece that survives the filter of with_word_search_only.py line 132. */
  predicate Kept(piece: string) {
    Strip(piece) != []
  }

  /** The term a kept piece becomes. */
  function Term(piece: string): string {
    Lower(Strip(piece))
  }

  /** The positions of the pieces that are not blank once stripped. */
  function NonBlank(pieces: seq<string>): set<int> {
    set i | 0 <= i < |pieces| && Strip(pieces[i]) != []
  }

  /** `Terms` is the comprehension's filter-map with `Kept` and `Term`. */
  lemma {:induction false} TermsFilterMap(pieces: seq<string>)
    ensures Terms(pieces) == FilterMap(pieces, Kept, Term)
    decreases |pieces|
  {
    if pieces != [] {
      TermsFilterMap(pieces[1..]);
    }
  }

  /** The terms of a concatenation are the terms of its parts, in order. */
  lemma TermsAppend(a: seq<string>, b: seq<string>)
    ensures Terms(a + b) == Terms(a) + Terms(b)
  {
    TermsFilterMap(a + b);
    TermsFilterMap(a);
    TermsFilterMap(b);
    FilterMapAppend(a, b, Kept, Term);
  }

  /** with_word_search_only.py lines 131-132, for every input: the terms
      are the stripped, lower-cased forms of the non-blank pieces of the
      comma split, one term for each such piece. */
  lemma ParseTermsSpec(input: string, t: string)
    ensures |ParseTerms(input)| == |NonBlank(Split(input, ','))|
    ensures t in ParseTerms(input) <==>
              exists p :: p in Split(input, ',') && Strip(p) != [] && t == Lower(Strip(p))
  {
    var ps := Split(input, ',');
    EmptyInputGuardRedundant(input);
    TermsCount(ps);
    TermsMembers(ps, t);
  }

  /** One term per non-blank piece: the filter drops the blank pieces and
      nothing else. */
  lemma TermsCount(pieces: seq<string>)
    ensures |Terms(pieces)| == |NonBlank(pieces)|
  {
    TermsFilterMap(pieces);
    FilterMapCount(pieces, Kept, Term);
    forall i | 0 <= i < |pieces|
      ensures i in NonBlank(pieces) <==> i in Selected(pieces, Kept)
    {
    }
    assert NonBlank(pieces) == Selected(pieces, Kept);
  }

  /** A string is a term exactly when it is the stripped, lower-cased form
      of some non-blank piece. */
  lemma TermsMembers(pieces: seq<string>, t: string)
    ensures t in Terms(pieces) <==>
              exists p :: p in pieces && Strip(p) != [] && t == Lower(Strip(p))
  {
    TermsFilterMap(pieces);
    FilterMapMembers(pieces, Kept, Term, t);
    if exists p :: p in pieces && Strip(p) != [] && t == Lower(Strip(p)) {
      var p :| p in pieces && Strip(p) != [] && t == Lower(Strip(p));
      var i :| 0 <= i < |pieces| && pieces[i] == p;
      assert Kept(pieces[i]) && t == Term(pieces[i]);
    }
    if t in Terms(pieces) {
      var i :| 0 <= i < |pieces| && Kept(pieces[i]) && t == Term(pieces[i]);
      assert pieces[i] in pieces;
    }
  }

  /** The terms keep the order of the input: the terms before the first
      comma come first, followed by the terms of the rest. */
  lemma ParseComma(a: string, rest: string)
    requires ',' !in a
    ensures ParseTerms(a + [','] + rest) == ParseTerms(a) + ParseTerms(rest)
  {
    EmptyInputGuardRedundant(a);
    EmptyInputGuardRedundant(rest);
    EmptyInputGuardRedundant(a + [','] + rest);
    SplitAfterPiece(a, ',', rest);
    SplitWithoutSep(a, ',');
    TermsAppend([a], Split(rest, ','));
  }

  /** An input without a comma is one term: itself, stripped and
      lower-cased, unless it is blank. */
  lemma ParseSingle(q: string)
    requires ',' !in q
    ensures Strip(q) != [] ==> ParseTerms(q) == [Lower(Strip(q))]
    ensures Strip(q) == [] ==> ParseTerms(q) == []
  {
    if q != [] {
      SplitWithoutSep(q, ',');
      var ps := Split(q, ',');
      assert ps[0] == q && ps[1..] == [];
      assert Terms(ps[1..]) == [];
    }
  }

  /** with_word_search_only.py lines 131-143: no query for an empty term list, otherwise the
      multi-skill query. */
  function Search(st: Store<string>, input: string): (r: Option<set<Digest>>)
    ensures r.None? <==> ParseTerms(input) == []
  {
    var terms := ParseTerms(input);
    if terms == [] then None else Some(MatchAll(st, terms))
  }

  /** A candidate is found exactly when it has every parsed term as a skill
      and no term is repeated in the input. */
  lemma SearchSpec(st: Store<string>, input: string, key: Digest)
    requires Search(st, input).Some?
    ensures var terms := ParseTerms(input);
            key in Search(st, input).value <==>
              && key in st.candidates
              && Distinct(terms)
              && forall i :: 0 <= i < |terms| ==> HasSkill(st, key, terms[i])
  {
    MatchAllSpec(st, ParseTerms(input), key);
  }
}
