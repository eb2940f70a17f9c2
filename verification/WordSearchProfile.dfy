/** `get_structured_data_from_llm` of the word-search variant, after the
    oracle call: the parsed reply becomes a profile with every string
    lower-cased, or the empty dict (None) when any step raises. */
module WordSearchProfile {
  import opened Wrappers
  import opened Json
  import opened Text
  import opened Graph

  datatype Profile = Profile(
    name: string,
    skills: seq<string>,
    education: seq<string>,
    projects: seq<string>,
    experience: seq<string>,
    certifications: seq<string>)

  /** The item list of category `c`. */
  function Items(p: Profile, c: Category): seq<string> {
    match c
    case Skill => p.skills
    case Education => p.education
    case Project => p.projects
    case Experience => p.experience
    case Certification => p.certifications
  }

  /** Every string of the profile is lower case. */
  predicate AllLower(p: Profile) {
    && IsLower(p.name)
    && EachLower(p.skills) && EachLower(p.education) && EachLower(p.projects)
    && EachLower(p.experience) && EachLower(p.certifications)
  }

  predicate EachLower(xs: seq<string>) {
    forall i :: 0 <= i < |xs| ==> IsLower(xs[i])
  }

  /** `LowerList` yields lower-case strings only. */
  lemma LowerListLower(ms: seq<(string, JsonValue)>, key: string)
    requires LowerList(ms, key).Some?
    ensures EachLower(LowerList(ms, key).value)
  {
  }

  /** `v.lower()`: only a string has the method (AttributeError otherwise). */
  function LowerValue(v: JsonValue): Option<string> {
    if v.JStr? then Some(Lower(v.s)) else None
  }

  /** `[x.lower() for x in vs]`: succeeds exactly when every element is a
      string, and then lower-cases each in place. */
  function LowerEach(vs: seq<JsonValue>): (r: Option<seq<string>>)
    ensures r.Some? <==> forall i :: 0 <= i < |vs| ==> vs[i].JStr?
    ensures r.Some? ==> |r.value| == |vs|
                        && forall i :: 0 <= i < |vs| ==> r.value[i] == Lower(vs[i].s)
    decreases |vs|
  {
    if vs == [] then Some([])
    else if !vs[0].JStr? then None
    else
      match LowerEach(vs[1..])
      case None => None
      case Some(rest) => Some([Lower(vs[0].s)] + rest)
  }

  /** `[x.lower() for x in d.get(key, [])]`. */
  function LowerList(ms: seq<(string, JsonValue)>, key: string): Option<seq<string>> {
    match Iterate(GetOr(ms, key, JArr([])))
    case None => None
    case Some(vs) => LowerEach(vs)
  }

  /** The reply shapes the comprehensions accept for `name`: absent, or a
      string. */
  predicate NameShaped(ms: seq<(string, JsonValue)>) {
    HasKey(ms, "name") ==> GetOr(ms, "name", JNull).JStr?
  }

  /** The shapes accepted for a list field: absent, a list of strings only,
      a string (iterated by character) or a dict (iterated by key). */
  predicate ListShaped(ms: seq<(string, JsonValue)>, c: Category) {
    match GetOr(ms, Field(c), JArr([]))
    case JArr(xs) => forall i :: 0 <= i < |xs| ==> xs[i].JStr?
    case JStr(_) => true
    case JObj(_) => true
    case _ => false
  }

  /** Every list field has an accepted shape. */
  predicate ListsShaped(ms: seq<(string, JsonValue)>) {
    && ListShaped(ms, Skill) && ListShaped(ms, Education) && ListShaped(ms, Project)
    && ListShaped(ms, Experience) && ListShaped(ms, Certification)
  }

  /** What a list field becomes when it is accepted. */
  function ExpectedItems(v: JsonValue): seq<string> {
    match v
    case JArr(xs) => seq(|xs|, i requires 0 <= i < |xs| => if xs[i].JStr? then Lower(xs[i].s) else "")
    case JStr(s) => seq(|s|, i requires 0 <= i < |s| => Lower([s[i]]))
    case JObj(fs) =>
      var ks := DictKeys(fs);
      seq(|ks|, i requires 0 <= i < |ks| => Lower(ks[i]))
    case _ => []
  }

  lemma LowerListSpec(ms: seq<(string, JsonValue)>, c: Category)
    ensures LowerList(ms, Field(c)).Some? <==> ListShaped(ms, c)
    ensures LowerList(ms, Field(c)).Some? ==>
              LowerList(ms, Field(c)).value == ExpectedItems(GetOr(ms, Field(c), JArr([])))
  {
    var v := GetOr(ms, Field(c), JArr([]));
    match v
    case JArr(xs) =>
    case JStr(s) =>
      var vs := Iterate(v).value;
      assert forall i :: 0 <= i < |vs| ==> vs[i].JStr?;
    case JObj(fs) =>
      var vs := Iterate(v).value;
      assert forall i :: 0 <= i < |vs| ==> vs[i].JStr?;
    case _ =>
  }

  /** The dict literal that `get_structured_data_from_llm` builds from a
      parsed object; any raising step gives None. */
  function NormalizeObject(ms: seq<(string, JsonValue)>): Option<Profile> {
    var name := LowerValue(GetOr(ms, "name", JStr("Unknown")));
    var skills := LowerList(ms, Field(Skill));
    var education := LowerList(ms, Field(Education));
    var projects := LowerList(ms, Field(Project));
    var experience := LowerList(ms, Field(Experience));
    var certifications := LowerList(ms, Field(Certification));
    if && name.Some? && skills.Some? && education.Some? && projects.Some?
       && experience.Some? && certifications.Some?
    then Some(Profile(name.value, skills.value, education.value, projects.value,
                      experience.value, certifications.value))
    else None
  }

  /** A parsed object normalises exactly when `name` is absent or a string
      and every list field is absent or iterable into strings. */
  lemma NormalizeObjectAccepts(ms: seq<(string, JsonValue)>)
    ensures NormalizeObject(ms).Some? <==> NameShaped(ms) && ListsShaped(ms)
  {
    LowerListSpec(ms, Skill);
    LowerListSpec(ms, Education);
    LowerListSpec(ms, Project);
    LowerListSpec(ms, Experience);
    LowerListSpec(ms, Certification);
    if HasKey(ms, "name") {
      assert GetOr(ms, "name", JStr("Unknown")) == GetOr(ms, "name", JNull);
    }
  }

  /** The name is lower-cased, and "unknown" when the reply has none. */
  lemma NormalizeObjectName(ms: seq<(string, JsonValue)>)
    requires NormalizeObject(ms).Some?
    ensures !HasKey(ms, "name") ==> NormalizeObject(ms).value.name == "unknown"
    ensures HasKey(ms, "name") ==> NormalizeObject(ms).value.name == Lower(GetOr(ms, "name", JNull).s)
  {
    var name := NormalizeObject(ms).value.name;
    assert Some(name) == LowerValue(GetOr(ms, "name", JStr("Unknown")));
    if HasKey(ms, "name") {
      assert GetOr(ms, "name", JStr("Unknown")) == GetOr(ms, "name", JNull);
    } else {
      LowerUnknown();
    }
  }

  lemma LowerUnknown()
    ensures Lower("Unknown") == "unknown"
  {
  }

  /** Each list is the lower-cased items of its field, in iteration order,
      and empty when the field is missing. */
  lemma NormalizeObjectItems(ms: seq<(string, JsonValue)>, c: Category)
    requires NormalizeObject(ms).Some?
    ensures Items(NormalizeObject(ms).value, c) == ExpectedItems(GetOr(ms, Field(c), JArr([])))
    ensures !HasKey(ms, Field(c)) ==> Items(NormalizeObject(ms).value, c) == []
  {
    LowerListSpec(ms, c);
  }

  /** No upper-case letter is left anywhere in a normalised profile. */
  lemma NormalizeObjectLower(ms: seq<(string, JsonValue)>)
    requires NormalizeObject(ms).Some?
    ensures AllLower(NormalizeObject(ms).value)
  {
    LowerListLower(ms, Field(Skill));
    LowerListLower(ms, Field(Education));
    LowerListLower(ms, Field(Project));
    LowerListLower(ms, Field(Experience));
    LowerListLower(ms, Field(Certification));
  }

  /** The post-processing of `get_structured_data_from_llm`: a failed call
      or parse, or a reply that is not a JSON object, gives the empty dict. */
  function Normalize(reply: Option<JsonValue>): (r: Option<Profile>)
    ensures r.Some? ==> reply.Some? && reply.value.JObj?
  {
    match reply
    case Some(JObj(ms)) => NormalizeObject(ms)
    case _ => None
  }

  /** The JSON layout the extraction prompt asks the oracle for. */
  function ToJson(p: Profile): JsonValue {
    JObj([("name", JStr(p.name)),
          ("skills", JArr(Strings(p.skills))),
          ("education", JArr(Strings(p.education))),
          ("projects", JArr(Strings(p.projects))),
          ("experience", JArr(Strings(p.experience))),
          ("certifications", JArr(Strings(p.certifications)))])
  }

  function Strings(xs: seq<string>): seq<JsonValue> {
    seq(|xs|, i requires 0 <= i < |xs| => JStr(xs[i]))
  }

  /** Lower-casing a list of lower-case strings gives the list back. */
  lemma {:induction false} LowerEachStrings(xs: seq<string>)
    requires EachLower(xs)
    ensures LowerEach(Strings(xs)) == Some(xs)
  {
    var r := LowerEach(Strings(xs));
    assert forall i :: 0 <= i < |Strings(xs)| ==> Strings(xs)[i].JStr?;
    forall i | 0 <= i < |xs|
      ensures r.value[i] == xs[i]
    {
      assert Strings(xs)[i] == JStr(xs[i]);
      LowerOfLower(xs[i]);
    }
    assert r.value == xs;
  }

  /** Looking up a field of the requested layout finds its list. */
  lemma ToJsonField(p: Profile, c: Category)
    ensures GetOr(ToJson(p).members, Field(c), JArr([])) == JArr(Strings(Items(p, c)))
  {
    var ms := ToJson(p).members;
    var k := match c
      case Skill => 1 case Education => 2 case Project => 3
      case Experience => 4 case Certification => 5;
    assert ms[k] == (Field(c), JArr(Strings(Items(p, c))));
    LookupLast(ms, k);
  }

  /** An object whose fields each normalise to the profile's own values
      normalises to the profile. */
  lemma NormalizeObjectOf(ms: seq<(string, JsonValue)>, p: Profile)
    requires LowerValue(GetOr(ms, "name", JStr("Unknown"))) == Some(p.name)
    requires forall c: Category :: LowerList(ms, Field(c)) == Some(Items(p, c))
    ensures NormalizeObject(ms) == Some(p)
  {
    assert LowerList(ms, Field(Skill)) == Some(p.skills);
    assert LowerList(ms, Field(Education)) == Some(p.education);
    assert LowerList(ms, Field(Project)) == Some(p.projects);
    assert LowerList(ms, Field(Experience)) == Some(p.experience);
    assert LowerList(ms, Field(Certification)) == Some(p.certifications);
  }

  /** The name of the requested layout is found as given. */
  lemma ToJsonName(p: Profile)
    ensures GetOr(ToJson(p).members, "name", JStr("Unknown")) == JStr(p.name)
  {
    LookupLast(ToJson(p).members, 0);
  }

  /** Every list field of the requested layout normalises to the list. */
  lemma ToJsonList(p: Profile, c: Category)
    requires EachLower(Items(p, c))
    ensures LowerList(ToJson(p).members, Field(c)) == Some(Items(p, c))
  {
    ToJsonField(p, c);
    LowerEachStrings(Items(p, c));
  }

  /** Every list field of a lower-case profile's layout normalises to the
      profile's own list. */
  lemma ToJsonLists(p: Profile)
    requires AllLower(p)
    ensures forall c: Category :: LowerList(ToJson(p).members, Field(c)) == Some(Items(p, c))
  {
    forall c: Category
      ensures LowerList(ToJson(p).members, Field(c)) == Some(Items(p, c))
    {
      assert EachLower(Items(p, c)) by {
        match c
        case Skill => case Education => case Project =>
        case Experience => case Certification =>
      }
      ToJsonList(p, c);
    }
  }

  /** A lower-case profile sent back in the requested layout normalises to
      itself. */
  lemma NormalizeToJson(p: Profile)
    requires AllLower(p)
    ensures Normalize(Some(ToJson(p))) == Some(p)
  {
    var ms := ToJson(p).members;
    ToJsonLists(p);
    ToJsonName(p);
    LowerOfLower(p.name);
    NormalizeObjectOf(ms, p);
  }

  /** Normalising is a fixpoint: a normalised profile, sent back in the
      requested layout, normalises to itself. */
  lemma NormalizeStable(reply: Option<JsonValue>)
    requires Normalize(reply).Some?
    ensures Normalize(Some(ToJson(Normalize(reply).value))) == Normalize(reply)
  {
    NormalizeToJson(Normalize(reply).value);
  }
}
