/** The admin's faculty list: search by name, email or `profile.basicInfo.department`. */
module FacultyList {
  import opened Wrappers
  import opened Seqs
  import opened Directory
  import AdminController

  predicate Matches(c: Card, term: string) {
    Mentions(c.name, term) || Mentions(c.email, term) || MentionsOpt(BasicInfoDepartment(c), term)
  }

  /** `filteredFaculty`: the faculty that match, in their listed order. */
  function Search(faculty: seq<Card>, term: string): (r: seq<Card>)
    ensures forall c :: c in r <==> c in faculty && Matches(c, term)
    ensures SelectsInOrder(r, faculty, c => Matches(c, term))
  {
    FilterSelectsInOrder(faculty, c => Matches(c, term));
    Filter(faculty, c => Matches(c, term))
  }

  /** An empty search box shows everyone. */
  lemma EmptyTermKeepsAll(faculty: seq<Card>)
    ensures Search(faculty, "") == faculty
  {
    forall c | c in faculty
      ensures Matches(c, "")
    {
      MentionsEmpty(c.name);
    }
    FilterAllKept(faculty, c => Matches(c, ""));
  }

  /** A missing profile or department never hides a member whose name or email matches. */
  lemma NameOrEmailSuffices(faculty: seq<Card>, c: Card, term: string)
    requires c in faculty && (Mentions(c.name, term) || Mentions(c.email, term))
    ensures c in Search(faculty, term)
  {
  }

  /** Unlike the alumni list, this search reaches the department the back end sends. */
  lemma ListedDepartmentSearched(u: AdminController.PublicUser, term: string)
    requires u.profile.basicInfo.Some? && u.profile.basicInfo.value.department.Some?
    requires Mentions(u.profile.basicInfo.value.department.value, term)
    ensures Matches(CardOf(u), term)
  {
  }
}
