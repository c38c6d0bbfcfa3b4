/** The faculty's alumni view: search by name or `profile.department` (not email),
    and the interested count of the event details panel. */
module ViewAlumni {
  import opened Wrappers
  import opened Seqs
  import opened Directory
  import EventModel

  predicate Matches(c: Card, term: string) {
    Mentions(c.name, term) || MentionsOpt(TopDepartment(c), term)
  }

  /** `filteredAlumni`: the alumni that match, in their listed order. */
  function Search(alumni: seq<Card>, term: string): (r: seq<Card>)
    ensures forall c :: c in r <==> c in alumni && Matches(c, term)
    ensures SelectsInOrder(r, alumni, c => Matches(c, term))
  {
    FilterSelectsInOrder(alumni, c => Matches(c, term));
    Filter(alumni, c => Matches(c, term))
  }

  /** An empty search box shows everyone. */
  lemma EmptyTermKeepsAll(alumni: seq<Card>)
    ensures Search(alumni, "") == alumni
  {
    forall c | c in alumni
      ensures Matches(c, "")
    {
      MentionsEmpty(c.name);
    }
    FilterAllKept(alumni, c => Matches(c, ""));
  }

  /** Email is not searched: an alumnus whose name and department do not mention the
      term is hidden, whatever the email holds, and changing the email never changes
      whether an alumnus matches. */
  lemma EmailNotSearched(alumni: seq<Card>, c: Card, term: string, email: string)
    requires !Mentions(c.name, term) && !MentionsOpt(TopDepartment(c), term)
    ensures c !in Search(alumni, term)
    ensures Matches(c.(email := email), term) == Matches(c, term)
  {
  }

  datatype InterestedAlumnus = InterestedAlumnus(id: int, avatar: string, name: string, department: string)

  /** The event the details panel receives. */
  datatype EventDetails = EventDetails(title: string, date: int, venue: string, description: string,
                                       interestedAlumni: Option<seq<InterestedAlumnus>>)

  /** `event.interestedAlumni?.length || 0` */
  function InterestedCount(d: EventDetails): (n: nat)
    ensures d.interestedAlumni.None? ==> n == 0
    ensures d.interestedAlumni.Some? ==> n == |d.interestedAlumni.value|
  {
    if d.interestedAlumni.Some? then |d.interestedAlumni.value| else 0
  }

  /** A stored event as the back end serialises it: its list is named `interestedUsers`,
      so `interestedAlumni` is absent. As written, no page can render this panel: the
      faculty dashboard uses the panel component without importing it, and the view file
      exports only the alumni view. The dashboard's sample events lack `interestedAlumni`
      too. So this describes the hypothetical flow in which a stored event reached the
      panel. */
  function DetailsOf(e: EventModel.Event): (d: EventDetails)
    ensures d.title == e.title && d.date == e.date && d.venue == e.venue && d.description == e.description
    ensures d.interestedAlumni.None?
  {
    EventDetails(e.title, e.date, e.venue, e.description, None)
  }

  /** Were a stored event handed to the panel, it would show 0 interested, however many
      users toggled in. */
  lemma StoredEventsShowNoInterest(e: EventModel.Event)
    ensures InterestedCount(DetailsOf(e)) == 0
  {
  }
}
