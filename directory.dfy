/** What the directory pages hold for each listed user, and the case-insensitive
    substring test their search boxes use. */
module Directory {
  import opened Wrappers
  import opened Text
  import opened Seqs
  import AdminController

  /** `profile.basicInfo` as the pages read it. */
  datatype BasicInfoCard = BasicInfoCard(department: Option<string>)

  /** `profile` as the pages read it: a top-level `department` and the `basicInfo` section. */
  datatype ProfileCard = ProfileCard(department: Option<string>, basicInfo: Option<BasicInfoCard>)

  /** One listed user. */
  datatype Card = Card(name: string, email: string, profile: Option<ProfileCard>)

  /** `text.toLowerCase().includes(term.toLowerCase())`. */
  predicate Mentions(text: string, term: string) {
    Includes(Lower(text), Lower(term))
  }

  /** `field?.toLowerCase().includes(...)`: a missing field never matches. */
  predicate MentionsOpt(text: Option<string>, term: string) {
    text.Some? && Mentions(text.value, term)
  }

  /** `profile?.department` */
  function TopDepartment(c: Card): (d: Option<string>)
    ensures d.Some? <==> c.profile.Some? && c.profile.value.department.Some?
  {
    if c.profile.Some? then c.profile.value.department else None
  }

  /** `profile?.basicInfo?.department` */
  function BasicInfoDepartment(c: Card): (d: Option<string>)
    ensures d.Some? <==> c.profile.Some? && c.profile.value.basicInfo.Some? && c.profile.value.basicInfo.value.department.Some?
  {
    if c.profile.Some? && c.profile.value.basicInfo.Some? then c.profile.value.basicInfo.value.department else None
  }

  /** A user as the back-end listing sends it: the schema has no top-level
      `profile.department`, only `profile.basicInfo.department`. */
  function CardOf(u: AdminController.PublicUser): (c: Card)
    ensures c.name == u.name && c.email == u.email
    ensures TopDepartment(c).None?
    ensures u.profile.basicInfo.Some? ==> BasicInfoDepartment(c) == u.profile.basicInfo.value.department
  {
    var basic := if u.profile.basicInfo.Some? then Some(BasicInfoCard(u.profile.basicInfo.value.department)) else None;
    Card(u.name, u.email, Some(ProfileCard(None, basic)))
  }

  /** The empty term is found in every text. */
  lemma MentionsEmpty(text: string)
    ensures Mentions(text, "")
  {
    assert Lower("") == [];
    assert OccursAt(Lower(text), [], 0);
  }

  /** Upper-casing the text does not change what it mentions. */
  lemma MentionsIgnoresCase(text: string, term: string)
    ensures Mentions(Upper(text), term) <==> Mentions(text, term)
  {
    assert Lower(Upper(text)) == Lower(text);
  }

  /** A search result without duplicates comes from a list without duplicates:
      filtering never duplicates an entry. */
  lemma SearchKeepsNoDup(cards: seq<Card>, keep: Card -> bool)
    requires NoDup(cards)
    ensures NoDup(Filter(cards, keep))
  {
    FilterNoDup(cards, keep);
  }
}
