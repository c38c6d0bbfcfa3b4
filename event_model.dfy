/** The Event record: four required fields, a required creator, the list of
    interested users, and the timestamps the store maintains. Dates are abstract
    instants (ints). */
module EventModel {
  import opened Wrappers
  import UserModel

  type EventId = int
  type UserId = UserModel.UserId

  datatype Event = Event(id: EventId, title: string, description: string, date: int, venue: string,
                         createdBy: UserId, interestedUsers: seq<UserId>, createdAt: int, updatedAt: int)

  /** The required string paths are non-empty. */
  predicate WellFormed(e: Event) {
    e.title != "" && e.description != "" && e.venue != ""
  }

  /** What `Event.create` is given; `date` is None when missing or not castable to a Date. */
  datatype EventDraft = EventDraft(title: Option<string>, description: Option<string>, date: Option<int>,
                                   venue: Option<string>, createdBy: Option<UserId>)

  /** The required paths the draft lacks, in schema order. */
  function MissingPaths(d: EventDraft): (paths: seq<string>)
    ensures "title" in paths <==> !UserModel.Present(d.title)
    ensures "description" in paths <==> !UserModel.Present(d.description)
    ensures "date" in paths <==> d.date.None?
    ensures "venue" in paths <==> !UserModel.Present(d.venue)
    ensures "createdBy" in paths <==> d.createdBy.None?
    ensures |paths| <= 5
  {
    (if UserModel.Present(d.title) then [] else ["title"])
    + (if UserModel.Present(d.description) then [] else ["description"])
    + (if d.date.Some? then [] else ["date"])
    + (if UserModel.Present(d.venue) then [] else ["venue"])
    + (if d.createdBy.Some? then [] else ["createdBy"])
  }

  /** `Event.create(draft)` at time `now`: fails listing every missing required path;
      otherwise the fields are copied, nobody is interested yet and both timestamps are `now`. */
  function Create(id: EventId, d: EventDraft, now: int): (r: Result<Event, seq<string>>)
    ensures r.Ok? <==> UserModel.Present(d.title) && UserModel.Present(d.description) && d.date.Some? && UserModel.Present(d.venue) && d.createdBy.Some?
    ensures r.Ok? ==> && WellFormed(r.value) && r.value.id == id
                      && r.value.title == d.title.value && r.value.description == d.description.value
                      && r.value.date == d.date.value && r.value.venue == d.venue.value
                      && r.value.createdBy == d.createdBy.value
                      && r.value.interestedUsers == []
                      && r.value.createdAt == now && r.value.updatedAt == now
    ensures r.Err? ==> r.error == MissingPaths(d) && |r.error| > 0
  {
    var missing := MissingPaths(d);
    if missing != [] then Err(missing)
    else Ok(Event(id, d.title.value, d.description.value, d.date.value, d.venue.value,
                  d.createdBy.value, [], now, now))
  }
}
