/** The FacultyProfile page: default sections, the load-time merge, and the
    edit handlers of the basicInfo, academic and research sections. */
module FacultyProfile {
  import opened Wrappers
  import opened ProfileDoc

  /** The page's initial profile. */
  function Defaults(): Doc {
    map[
      "basicInfo" := map["name" := Str(""), "email" := Str(""), "phone" := Str(""), "avatar" := Str(""),
                         "department" := Str(""), "designation" := Str(""), "employeeId" := Str("")],
      "academic" := map["specialization" := Str(""), "qualifications" := Items([]), "subjects" := Items([]),
                        "experience" := Str("")],
      "research" := map["publications" := Items([]), "projects" := Items([]), "areas" := Items([])],
      "contact" := map["officeLocation" := Str(""), "officeHours" := Str(""), "website" := Str("")]
    ]
  }

  /** One keystroke in one input: the section, the key and the new text. */
  datatype Edit =
    | EditBasicInfo(key: string, input: string)
    | EditAcademic(key: string, input: string)
    | EditResearch(key: string, input: string)
  {
    function Section(): string {
      match this
      case EditBasicInfo(_, _) => "basicInfo"
      case EditAcademic(_, _) => "academic"
      case EditResearch(_, _) => "research"
    }
  }

  /** Whether the field currently holds an array (`Array.isArray(value)`). */
  predicate HoldsList(doc: Doc, section: string, key: string) {
    key in SectionOf(doc, section) && SectionOf(doc, section)[key].Items?
  }

  /** The `onChange` handlers: one key of one section takes the new value, parsed
      as a comma list (academic) or a newline list (research) when it holds an array;
      every other key and section, `contact` included, is unchanged. */
  function Apply(doc: Doc, e: Edit): (r: Doc)
    ensures r.Keys == doc.Keys + {e.Section()}
    ensures r[e.Section()].Keys == SectionOf(doc, e.Section()).Keys + {e.key}
    ensures forall f :: f in SectionOf(doc, e.Section()) && f != e.key ==> r[e.Section()][f] == SectionOf(doc, e.Section())[f]
    ensures forall s :: s in doc && s != e.Section() ==> r[s] == doc[s]
    ensures "contact" in doc ==> r["contact"] == doc["contact"]
    ensures e.EditBasicInfo? ==> r["basicInfo"][e.key] == Str(e.input)
    ensures e.EditAcademic? ==>
              r["academic"][e.key] ==
              (if HoldsList(doc, "academic", e.key) then Items(ParseCommaList(e.input)) else Str(e.input))
    ensures e.EditResearch? ==>
              r["research"][e.key] ==
              (if HoldsList(doc, "research", e.key) then Items(ParseLines(e.input)) else Str(e.input))
  {
    match e
    case EditBasicInfo(key, input) => SetField(doc, "basicInfo", key, Str(input))
    case EditAcademic(key, input) => EditCommaField(doc, "academic", key, input)
    case EditResearch(key, input) =>
      if HoldsList(doc, "research", key) then SetField(doc, "research", key, Items(ParseLines(input)))
      else SetField(doc, "research", key, Str(input))
  }

  /** A list stays a list under every edit. */
  lemma EditKeepsLists(doc: Doc, e: Edit)
    requires HoldsList(doc, e.Section(), e.key)
    requires !e.EditBasicInfo?
    ensures HoldsList(Apply(doc, e), e.Section(), e.key)
  {
  }

  /** Typing back what an academic list displays leaves the profile unchanged
      (non-empty list of items without commas or outer white space). */
  lemma AcademicRoundTrip(doc: Doc, key: string, items: seq<string>)
    requires "academic" in doc && key in doc["academic"] && doc["academic"][key] == Items(items)
    requires |items| >= 1 && forall k :: 0 <= k < |items| ==> CleanItem(items[k])
    ensures Apply(doc, EditAcademic(key, ShowCommaList(items))) == doc
  {
    EditCommaFieldRoundTrip(doc, "academic", key, items);
  }

  /** An academic list that is empty displays as "" and, if that text is submitted
      through the handler, becomes the one-item list [""]. */
  lemma EmptyAcademicListBecomesBlankItem(doc: Doc, key: string)
    requires "academic" in doc && key in doc["academic"] && doc["academic"][key] == Items([])
    ensures Apply(doc, EditAcademic(key, ShowCommaList([])))["academic"][key] == Items([""])
  {
    EmptyCommaListReadsBackBlank();
  }

  /** Typing back what a research list displays leaves the profile unchanged
      (non-empty list of single-line items). */
  lemma ResearchRoundTrip(doc: Doc, key: string, items: seq<string>)
    requires "research" in doc && key in doc["research"] && doc["research"][key] == Items(items)
    requires |items| >= 1 && forall k :: 0 <= k < |items| ==> '\n' !in items[k]
    ensures Apply(doc, EditResearch(key, ShowLines(items))) == doc
  {
    LinesRoundTrip(items);
    var r := Apply(doc, EditResearch(key, ShowLines(items)));
    assert r["research"] == doc["research"];
  }

  /** A research list displays exactly the text that was typed into it. */
  lemma ResearchShowsWhatWasTyped(doc: Doc, key: string, input: string)
    requires HoldsList(doc, "research", key)
    ensures ShowLines(Apply(doc, EditResearch(key, input))["research"][key].items) == input
  {
    LinesShowParse(input);
  }

  /** The page after loading the signed-in user: sections the stored profile has
      replace the defaults wholesale, the others keep their defaults. */
  lemma LoadKeepsMissingDefaults(stored: Doc, section: string)
    requires section in Defaults() && section !in stored
    ensures LoadProfile(Defaults(), Some(stored))[section] == Defaults()[section]
  {
  }
}
