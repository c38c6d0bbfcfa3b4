/** The admin's alumni list: search by name, email or `profile.department`. */
module AlumniList {
  import opened Wrappers
  import opened Seqs
  import opened Directory
  import AdminController

  predicate Matches(c: Card, term: string) {
    Mentions(c.name, term) || Mentions(c.email, term) || MentionsOpt(TopDepartment(c), term)
  }

  /** `filteredAlumni`: the alumni that match, in their listed order. */
  function Search(alumni: seq<Card>, term: string): (r: seq<Card>)
    ensures forall c :: c in r <==> c in alumni && Matches(c, term)
    ensures SelectsInOrder(r, alumni, c => Matches(c, term))
  {
    FilterSelectsInOrder(alumni, c => Matches(c, term));
    Filter(alumni, c => Matches(c, term))
  }

  /** An empty search box shows everyone. */
  lemma EmptyTermKeepsAll(alumni: seq<Card>)
    ensures Search(alumni, "") == alumni
  {
    forall c | c in alumni
      ensures Matches(c, "")
    {
      MentionsEmpty(c.name);
    }
    FilterAllKept(alumni, c => Matches(c, ""));
  }

  /** A missing department never hides an alumnus whose name or email matches. */
  lemma NameOrEmailSuffices(alumni: seq<Card>, c: Card, term: string)
    requires c in alumni && (Mentions(c.name, term) || Mentions(c.email, term))
    ensures c in Search(alumni, term)
  {
  }

  /** The card shows `profile.basicInfo.department` but the search reads
      `profile.department`, which the back end never sends: for listed users the
      department is not searchable. */
  lemma BasicInfoDepartmentNotSearched(u: AdminController.PublicUser, term: string)
    ensures Matches(CardOf(u), term) <==> Mentions(u.name, term) || Mentions(u.email, term)
  {
  }
}
