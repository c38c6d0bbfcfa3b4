/** The AlumniProfile page: default sections, the load-time merge, and the edit
    handlers of the basicInfo and professional sections. */
module AlumniProfile {
  import opened Wrappers
  import opened ProfileDoc

  /** The page's initial profile. */
  function Defaults(): Doc {
    map[
      "basicInfo" := map["name" := Str(""), "email" := Str(""), "phone" := Str(""), "location" := Str(""),
                         "avatar" := Str(""), "graduationYear" := Str(""), "department" := Str("")],
      "professional" := map["currentCompany" := Str(""), "designation" := Str(""), "experience" := Str(""),
                            "skills" := Items([]), "achievements" := Items([])],
      "social" := map["linkedin" := Str(""), "github" := Str(""), "portfolio" := Str("")],
      "education" := map["degree" := Str(""), "major" := Str(""), "cgpa" := Str(""), "activities" := Str("")]
    ]
  }

  /** One keystroke in one input. */
  datatype Edit =
    | EditBasicInfo(key: string, input: string)
    | EditProfessional(key: string, input: string)
  {
    function Section(): string {
      if EditBasicInfo? then "basicInfo" else "professional"
    }
  }

  /** skills and achievements are edited as comma lists, chosen by the key's name. */
  predicate IsListKey(key: string) {
    key == "skills" || key == "achievements"
  }

  /** The `onChange` handlers: one key of one section changes; `social` and
      `education`, which the page never renders as inputs, are never modified. */
  function Apply(doc: Doc, e: Edit): (r: Doc)
    ensures r.Keys == doc.Keys + {e.Section()}
    ensures r[e.Section()].Keys == SectionOf(doc, e.Section()).Keys + {e.key}
    ensures forall f :: f in SectionOf(doc, e.Section()) && f != e.key ==> r[e.Section()][f] == SectionOf(doc, e.Section())[f]
    ensures forall s :: s in doc && s != e.Section() ==> r[s] == doc[s]
    ensures "social" in doc ==> r["social"] == doc["social"]
    ensures "education" in doc ==> r["education"] == doc["education"]
    ensures e.EditBasicInfo? ==> r["basicInfo"][e.key] == Str(e.input)
    ensures e.EditProfessional? ==>
              r["professional"][e.key] ==
              (if IsListKey(e.key) then Items(ParseCommaList(e.input)) else Str(e.input))
  {
    match e
    case EditBasicInfo(key, input) => SetField(doc, "basicInfo", key, Str(input))
    case EditProfessional(key, input) =>
      SetField(doc, "professional", key, if IsListKey(key) then Items(ParseCommaList(input)) else Str(input))
  }

  /** Typing back what the skills (or achievements) input displays leaves the
      profile unchanged (non-empty list of items without commas or outer white space). */
  lemma ListKeyRoundTrip(doc: Doc, key: string, items: seq<string>)
    requires IsListKey(key)
    requires "professional" in doc && key in doc["professional"] && doc["professional"][key] == Items(items)
    requires |items| >= 1 && forall k :: 0 <= k < |items| ==> CleanItem(items[k])
    ensures Apply(doc, EditProfessional(key, ShowCommaList(items))) == doc
  {
    CommaListRoundTrip(items);
    var r := Apply(doc, EditProfessional(key, ShowCommaList(items)));
    assert r["professional"] == doc["professional"];
  }

  /** The choice is by name: after an edit, a skills or achievements field holds a list
      and a professional field of any other name holds text. (The model also allows a
      list-named field that holds text before the edit; the page cannot reach that state,
      because it would throw when it renders the field with `join`.) */
  lemma KeyNameDecidesListness(doc: Doc, key: string, input: string)
    ensures Apply(doc, EditProfessional(key, input))["professional"][key].Items? <==> IsListKey(key)
  {
  }

  /** The page after loading the signed-in user: sections the stored profile has
      replace the defaults wholesale, the others keep their defaults; in particular,
      without a stored `professional` section, skills and achievements stay empty lists. */
  lemma LoadKeepsMissingDefaults(stored: Doc, section: string)
    requires section in Defaults() && section !in stored
    ensures LoadProfile(Defaults(), Some(stored))[section] == Defaults()[section]
    ensures section == "professional" ==>
      LoadProfile(Defaults(), Some(stored))[section]["skills"] == Items([]) &&
      LoadProfile(Defaults(), Some(stored))[section]["achievements"] == Items([])
  {
  }
}
