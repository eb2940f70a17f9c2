# Resume Finder: a Dafny model of resume ingestion and skill search

The repository holds two near-duplicate Streamlit applications.
`with_word_search_only.py` is the word-search variant and `main4.py` the basic one.
Both turn uploaded resumes into a Neo4j property graph and search it by skill.
This project models the logic of both over an abstract in-memory graph:

- **Profile extraction** (`get_structured_data_from_llm`), after the language-model call:
  - the word-search variant lower-cases every string of the parsed reply and returns `{}` when any step raises;
  - the basic variant returns the parsed reply verbatim.
  The reply itself is an input, `Option<JsonValue>`; `None` stands for a failed call or parse.
- **Graph upsert** (`add_candidate_to_neo4j`). The store is a map from content digest to candidate properties, plus a set of attribute nodes keyed by (label, name) and a set of edges keyed by (candidate, relationship type, node). `graph.merge` is insert-if-absent.
  The digest function is a parameter and is never assumed injective.
  What py2neo does to the name and content of a Candidate that already exists is a boolean parameter `onMatchSet` (keep or overwrite). Every property holds for both values.
- **Skill search**:
  - the word-search variant's multi-skill Cypher query, `COUNT(DISTINCT s.name) = SIZE($skills)`, and its comma-separated input parser;
  - the basic variant's exact, case-sensitive single-skill query.
- **The session**: the ingestion loop over uploaded files with its set of processed file names, and the "Clear Graph DB" button. Each is a pure function on `(store, processed)`.

Modules:

| module | file | contents |
|---|---|---|
| `Wrappers`, `Collections` | `Wrappers.dfy`, `Collections.dfy` | `Option`; distinctness, set size and filtering comprehensions |
| `Json` | `Json.dfy` | parsed JSON values, `dict.get` with last-binding-wins, Python iteration of a value |
| `Text` | `Text.dfy` | `str.lower`, `str.strip`, `str.split`, `str.join` |
| `Graph` | `Graph.dfy` | the store, merge operations, store validity |
| `Match` | `Match.dfy` | the meaning of both Cypher queries |
| `Ingestion` | `Ingestion.dfy` | uploads, session state, the names a batch selects, clear |
| `WordSearchProfile`, `WordSearchGraph`, `WordSearchQuery`, `WordSearchSession` | one file each | the word-search variant |
| `BasicGraph`, `BasicSession` | one file each | the basic variant |

Python's behaviour on an unexpected reply shape is modelled case by case:

- `.get` on a dict with a repeated key sees the last binding.
- `for x in v` over a list gives its items, over a string its one-character strings, over a dict its distinct keys in first-occurrence order; anything else raises `TypeError`.
- `.lower()` exists on strings only.

In the word-search variant every such exception is caught and gives `{}`. In the basic variant nothing catches it, so the script run ends there. That is `BasicGraph.Run`:

- `Crashed` keeps the writes made before the exception;
- the loop stops at that file;
- the file's name is not recorded.

Two behaviours of the code are worth stating directly:

- **Duplicate search terms.** The multi-skill query keeps a candidate when `COUNT(DISTINCT s.name)` equals `SIZE($skills)` (with_word_search_only.py:139-140). An input that repeats a term, such as `python, python`, therefore matches nobody (`Match.RepeatedTermMatchesNobody`).
- **What counts as already ingested.** A file is skipped when its name is in the processed set (with_word_search_only.py:114, main4.py:104), whatever its content.

## Model

| member | source | states |
|---|---|---|
| `Json.Lookup` | with_word_search_only.py:65-70 | `d.get(key)` finds a value exactly when the key occurs in the object, and the value found is bound to that key in the document |
| `Json.LookupLast` | with_word_search_only.py:62 | a binding that no later binding of the same key overrides is the one `get` returns (`json.loads` keeps the last duplicate) |
| `Json.GetOr` | with_word_search_only.py:65-66 | definition of `d.get(key, default)`: the bound value when the key occurs, the default otherwise; properties in `Lookup` and `LookupLast` |
| `Json.DictKeys` | with_word_search_only.py:66-70 | iterating a dict yields each of its keys exactly once, and nothing else |
| `Json.Iterate` | main4.py:81 | definition of Python iteration over a parsed value (list items, string characters, dict keys, otherwise `TypeError`); properties in `Json.DictKeys`, `WordSearchProfile.LowerListSpec` and `BasicGraph.FieldGroups` |
| `Json.Truthy` | main4.py:110 | definition of Python truthiness of a parsed value; properties in `BasicSession.Step` |
| `Text.Lower` | with_word_search_only.py:65-70 | `lower()` keeps the length, maps each character on its own, and leaves no upper-case ASCII letter |
| `Text.LowerOfLower` | with_word_search_only.py:92 | lower-casing an already lower-case string changes nothing |
| `Text.Strip` | with_word_search_only.py:132 | `strip()` returns a slice of its input with no whitespace at either end and only whitespace cut away, and leaves a clean string unchanged |
| `Text.Split` | with_word_search_only.py:132 | `split(",")` yields at least one piece, and no piece contains the separator |
| `Text.JoinSplit` | with_word_search_only.py:132 | joining the pieces of a split with the same separator gives the input back |
| `Text.SplitJoin` | with_word_search_only.py:132 | splitting a join of non-empty, separator-free pieces gives the pieces back |
| `Collections.ToSetCard` | with_word_search_only.py:139-140 | the number of distinct elements of a list is at most its length, with equality exactly when there are no repeats |
| `Collections.FilterMapAppend` | with_word_search_only.py:132 | a filtering comprehension over a concatenation is the concatenation of the comprehensions over its parts |
| `Collections.FilterMapCount` | with_word_search_only.py:132 | a filtering comprehension yields exactly one element per selected position |
| `Collections.FilterMapMembers` | with_word_search_only.py:132 | a value comes out of a filtering comprehension exactly when it is the image of some selected element |
| `WordSearchProfile.LowerEach` | with_word_search_only.py:66 | `[s.lower() for s in items]` succeeds exactly when every item is a string, and then lower-cases each item in place |
| `WordSearchProfile.LowerList` | with_word_search_only.py:66-70 | definition of `[x.lower() for x in d.get(key, [])]`, raising when the field cannot be iterated or holds a non-string; properties in `LowerListSpec` |
| `WordSearchProfile.LowerListSpec` | with_word_search_only.py:66-70 | a list field is accepted exactly when it is absent, a list of strings, a string or a dict, and then becomes the lower-cased items of its iteration |
| `WordSearchProfile.NormalizeObject` | with_word_search_only.py:64-71 | definition of the normalising comprehension over a parsed object; properties in `NormalizeObjectAccepts`, `NormalizeObjectName`, `NormalizeObjectItems`, `NormalizeObjectLower` and `NormalizeToJson` |
| `WordSearchProfile.NormalizeObjectAccepts` | with_word_search_only.py:64-75 | a parsed object gives a profile exactly when `name` is absent or a string and every list field is accepted; otherwise the result is `{}` |
| `WordSearchProfile.NormalizeObjectName` | with_word_search_only.py:65 | the profile's name is "unknown" when the reply has none, and otherwise the reply's name lower-cased |
| `WordSearchProfile.NormalizeObjectItems` | with_word_search_only.py:66-70 | each list is the lower-cased items of its field in iteration order, and empty when the field is missing |
| `WordSearchProfile.NormalizeObjectLower` | with_word_search_only.py:64-71 | no upper-case letter remains anywhere in a normalised profile |
| `WordSearchProfile.Normalize` | with_word_search_only.py:57-75 | a failed call or parse, or a reply that is not a JSON object, gives `{}` |
| `WordSearchProfile.NormalizeToJson` | with_word_search_only.py:46-71 | a lower-case profile, sent back in the JSON layout the prompt requests, normalises to itself |
| `WordSearchProfile.NormalizeStable` | with_word_search_only.py:64-71 | normalising is a fixpoint: a normalised profile, sent back in that layout, normalises to the same profile |
| `Graph.MergeCandidate` | with_word_search_only.py:81-82 | merging a Candidate adds its digest key and leaves every other candidate as it was; a new candidate gets the given properties, and an existing one keeps or takes them according to the on-match policy |
| `Graph.MergeItems` | with_word_search_only.py:91-94 | merging a category's items adds exactly the (label, item) nodes and the candidate's edges to them |
| `Graph.MergeGroups` | with_word_search_only.py:84-94 | merging the five groups adds exactly their nodes and edges and touches no candidate |
| `Graph.Merge` | with_word_search_only.py:81-94 | definition of the merge both upserts share: the candidate, then each group's nodes and edges (main4.py lines 71-84 likewise); properties in `MergeAdds`, `MergeIdempotent`, `MergeLinksEveryItem` and `MergeKeepsValid` |
| `Graph.MergeAdds` | with_word_search_only.py:79-94 | an upsert keeps everything stored, adds the digest key, and adds exactly the nodes and edges the groups ask for |
| `Graph.MergeIdempotent` | with_word_search_only.py:77-94 | merging the same candidate and groups twice equals merging them once |
| `Graph.MergeLinksEveryItem` | with_word_search_only.py:84-94 | after a merge, every item of every group is linked from the candidate |
| `Graph.MergeKeepsValid` | with_word_search_only.py:79-94 | merging under the digest of the content keeps candidates under their own digest, and keeps every edge between an existing candidate and an existing node with its category's relationship type |
| `Graph.EmptyValid` | with_word_search_only.py:26-27 | the empty store is valid for every digest function |
| `WordSearchGraph.Upsert` | with_word_search_only.py:77-94 | definition of the word-search upsert; properties in `UpsertLinksEveryItem`, `UpsertAddsOnlyItemNodes`, `UpsertAddsOnlyItemEdges`, `UpsertIdempotent` and `UpsertKeepsValid` |
| `WordSearchGraph.UpsertLinksEveryItem` | with_word_search_only.py:84-94 | after an upsert, nothing is lost, the candidate is present, and the lower-cased form of every item of every category is linked from it |
| `WordSearchGraph.UpsertAddsOnlyItemNodes` | with_word_search_only.py:84-93 | the candidate keys become the old keys plus the digest of the text (already among them when the same text was upserted before), and every new node is a lower-cased item of the profile under its own label |
| `WordSearchGraph.UpsertAddsOnlyItemEdges` | with_word_search_only.py:91-94 | every new edge leaves the new candidate with its category's relationship type and reaches one of the profile's items |
| `WordSearchGraph.UpsertIdempotent` | with_word_search_only.py:77-94 | upserting the same profile and text twice gives the same store as once |
| `WordSearchGraph.UpsertKeepsValid` | with_word_search_only.py:77-94 | upserting keeps the store valid |
| `WordSearchGraph.UpsertOfLowerProfile` | with_word_search_only.py:78-92 | for a normalised profile, the upsert's second lower-casing changes nothing: names and items are stored as the profile holds them |
| `WordSearchGraph.SharedSkillNode` | with_word_search_only.py:92-94 | two resumes listing the same skill in any letter case are both linked to the one Skill node of that lower-cased name, by two distinct edges when the texts have distinct digests |
| `WordSearchGraph.SameNameTwoLabels` | with_word_search_only.py:84-94 | one string listed under two categories gives two distinct nodes, both linked |
| `WordSearchQuery.PieceTerm` | with_word_search_only.py:132 | a comma-free, non-blank piece becomes a valid term: non-empty, lower case, stripped, comma-free |
| `WordSearchQuery.Terms` | with_word_search_only.py:132 | definition of `[s.strip().lower() for s in pieces if s.strip()]`; properties in `TermsFilterMap`, `TermsCount`, `TermsMembers` and `TermsOfValid` |
| `WordSearchQuery.TermsFilterMap` | with_word_search_only.py:132 | the term list is the filtering comprehension that keeps the non-blank pieces and maps each to its stripped, lower-cased form |
| `WordSearchQuery.TermsAppend` | with_word_search_only.py:132 | the terms of a concatenation of pieces are the terms of the first part followed by those of the second |
| `WordSearchQuery.TermsCount` | with_word_search_only.py:132 | there is exactly one term per piece that is not blank once stripped |
| `WordSearchQuery.TermsMembers` | with_word_search_only.py:132 | a string is a term exactly when it is the stripped, lower-cased form of some non-blank piece |
| `WordSearchQuery.TermsValid` | with_word_search_only.py:132 | comma-free pieces give at most as many terms, each one valid |
| `WordSearchQuery.ParseTerms` | with_word_search_only.py:131-132 | every parsed term is valid: non-empty, lower case, stripped and comma-free |
| `WordSearchQuery.ParseTermsSpec` | with_word_search_only.py:131-132 | for every input, a string is a term exactly when it is the stripped, lower-cased form of a non-blank piece of the comma split, and there are exactly as many terms as non-blank pieces |
| `WordSearchQuery.ParseComma` | with_word_search_only.py:132 | the terms keep the input's order: the terms of the text before the first comma come first, then the terms of the rest |
| `WordSearchQuery.EmptyInputGuardRedundant` | with_word_search_only.py:131-132 | the empty input parses to the same (empty) list with or without the guard |
| `WordSearchQuery.ParseJoin` | with_word_search_only.py:132 | valid terms joined with commas parse back to themselves in the same order |
| `WordSearchQuery.TermsOfValid` | with_word_search_only.py:132 | valid pieces pass through strip, lower-case and the blank filter unchanged |
| `WordSearchQuery.ParseSingle` | with_word_search_only.py:132 | a comma-free input gives its stripped, lower-cased self as the single term, or no term when it is blank |
| `WordSearchQuery.Search` | with_word_search_only.py:134-143 | no query is issued exactly when the input parses to no term |
| `WordSearchQuery.SearchSpec` | with_word_search_only.py:136-143 | a candidate is found exactly when it has every parsed term as a skill and no term is repeated |
| `Match.MatchAll` | with_word_search_only.py:136-140 | definition of the multi-skill query's candidate set; properties in `MatchAllSpec` and `RepeatedTermMatchesNobody` |
| `Match.MatchAllSpec` | with_word_search_only.py:137-140 | the multi-skill query returns a candidate exactly when the term list is non-empty and repeat-free and every term names one of its skills |
| `Match.RepeatedTermMatchesNobody` | with_word_search_only.py:139-140 | a term list with a repeated term matches no candidate |
| `Match.RowsIdentifyCandidates` | with_word_search_only.py:141 | in a valid store each returned (name, content) row is the candidate stored under the digest of that content, and every returned candidate gives a row, so `RETURN DISTINCT` merges no two candidates |
| `Match.EmptyMatchesNobody` | with_word_search_only.py:136-141 | neither query finds anyone in an empty store |
| `Match.SkillPaths` | main4.py:123 | the single-skill query yields at most one row per candidate |
| `Match.SingleMatch` | main4.py:123 | definition of the single-skill query's candidate set; properties in `SingleMatchSpec` and `SkillPaths` |
| `Match.SingleMatchSpec` | main4.py:123 | the single-skill query returns exactly the candidates with a HAS_SKILL edge to the Skill node named by the query, and it agrees with the multi-skill query on a one-term list |
| `Ingestion.Clear` | with_word_search_only.py:106-108 | the clear button empties both the store and the processed set |
| `Ingestion.ClearForgetsEverything` | with_word_search_only.py:26-27 | after a clear, no query finds anyone and the store is valid |
| `WordSearchSession.Step` | with_word_search_only.py:113-122 | a processed or rejected file changes nothing; otherwise the name is recorded, the store only grows, the candidate is stored, and it is linked to the lower-cased form of every item of its profile |
| `Ingestion.NamesWhereSpec` | with_word_search_only.py:113-122 | a name is in a batch's selected names exactly when some file of the batch carries it and is selected: by a reply that normalises in the word-search variant (`AcceptedNames`), by a truthy reply in the basic one (main4.py lines 110-112, `WantedNames`) |
| `WordSearchSession.Ingest` | with_word_search_only.py:111-122 | after the loop, the processed names are the old ones plus exactly the accepted names, and the store only grows |
| `WordSearchSession.Rerun` | with_word_search_only.py:103-122 | after a clear, the processed set is exactly the accepted names of the batch; without one, nothing is lost |
| `WordSearchSession.IngestKeepsValid` | with_word_search_only.py:111-122 | ingestion keeps the store valid |
| `WordSearchSession.IngestSettled` | with_word_search_only.py:114-115 | a session that already records every accepted name of a batch is left untouched by the batch |
| `WordSearchSession.RerunIdempotent` | with_word_search_only.py:103-122 | running the loop a second time over the same uploads, with the same extractor replies, changes nothing |
| `WordSearchSession.SearchIgnoresCase` | with_word_search_only.py:131-140 | a skill typed in any letter case finds a resume that listed it in any other case |
| `BasicGraph.Extract` | main4.py:57-65 | the extractor returns the parsed reply unchanged, and a falsy `{}` when the call or parse raised |
| `BasicGraph.FieldGroups` | main4.py:74-81 | the loop visits the categories in order with each field's iteration, and stops at the first field it cannot iterate |
| `BasicGraph.FieldGroupsPrefix` | main4.py:74-81 | the groups visited are a prefix of the five categories, and all five exactly when every field is iterable |
| `BasicGraph.Upsert` | main4.py:67-84 | definition of the basic upsert, crash included; properties in `UpsertCompletes`, `UpsertVerbatim`, `UpsertOnlyAdds`, `UpsertIdempotent` and `UpsertKeepsValid` |
| `BasicGraph.UpsertCompletes` | main4.py:67-84 | the upsert completes exactly when the reply is a dict whose five list fields are absent or iterable; a non-dict crashes before any write |
| `BasicGraph.UpsertCompletedStore` | main4.py:71-84 | a completed upsert merges the candidate and all five categories |
| `BasicGraph.UpsertVerbatim` | main4.py:67-84 | a completed upsert stores the name (default "Unknown") and every item exactly as given, with no case folding, and loses nothing |
| `BasicGraph.UpsertOnlyAdds` | main4.py:67-84 | crashed or not, the upsert loses nothing, adds at most the one candidate, and adds only nodes of the reply's own items |
| `BasicGraph.UpsertIdempotent` | main4.py:67-84 | repeating an upsert gives the same outcome and the same store, including after a crash |
| `BasicGraph.UpsertKeepsValid` | main4.py:69-84 | crashed or not, the upsert keeps the store valid |
| `BasicGraph.Search` | main4.py:118-125 | no query is issued exactly when the search box is empty |
| `BasicGraph.SearchSpec` | main4.py:120-125 | the search finds exactly the candidates with a HAS_SKILL edge to the Skill node whose name is the query string itself |
| `BasicGraph.SearchIsExact` | main4.py:120-125 | after one upsert into an empty store, a query finds the resume exactly when the query string is one of its listed skills |
| `BasicGraph.SearchIsCaseSensitive` | main4.py:123 | a resume listing "Python" is found by "Python" and not by "python" |
| `BasicSession.Step` | main4.py:103-112 | a processed name or a falsy reply changes nothing; a completed upsert records the name; a crash records nothing; the store only grows |
| `BasicSession.Ingest` | main4.py:101-112 | a loop that completes records exactly the wanted names; any run records only wanted names, and the store only grows |
| `BasicSession.Rerun` | main4.py:93-112 | after a clear, a completed run records exactly the wanted names; without one, nothing is lost |
| `BasicSession.IngestKeepsValid` | main4.py:101-112 | ingestion keeps the store valid, crash or not |
| `BasicSession.RerunIdempotent` | main4.py:93-112 | a second run over the same uploads, with the same extractor replies, has the same outcome and leaves the session as the first left it, even when the first crashed |

## Left out

- PDF text extraction (`extract_text_from_pdf`): the resume text is an input string.
- The language-model calls, both for extraction and for the word-search variant's per-result summaries: the parsed extraction reply is an input, and summaries are display only.
- WordSearchSession.RerunIdempotent and BasicSession.RerunIdempotent assume that each upload carries the same extractor reply on both runs. The code calls the language model again, at temperature 0.2, for every file whose name is not yet recorded, so a second run can see a different reply.
- MD5: the digest is an uninterpreted function parameter that is not assumed injective.
- The Neo4j connection, transactions and the client library's internals. A crash inside one `graph.merge` call is not modelled; crashes happen between calls, where Python raises.
- What `graph.merge` does to the properties of an existing Candidate: this is the `onMatchSet` parameter. `content_hash` is the map key, not a stored property.
- Neo4j's handling of non-string or nested property values in the basic variant: items and names are stored as the JSON values the reply holds.
- Unicode case mapping and Unicode whitespace: `lower()` maps ASCII letters only, and `strip()` removes ASCII whitespace only (codes 9 to 13 and 28 to 32).
- Streamlit rendering: `.title()` on displayed names, spinners, success and warning messages, and the session state's storage.
- Deduplication by content: files are skipped by file name (with_word_search_only.py:114, main4.py:104), so a renamed copy of a resume is ingested again, and the model does the same.
- Result order of the Cypher queries: results are modelled as sets, since neither query orders its rows.
