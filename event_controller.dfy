/** The event handlers over the shared event collection: create, list with the
    creator's name, and the interest toggle. */
module EventController {
  import opened Wrappers
  import opened Seqs
  import UserModel
  import opened EventModel

  /** The interest toggle: a user already in the list is removed (every occurrence),
      otherwise the user is appended at the end. */
  function Toggle(users: seq<UserId>, caller: UserId): (r: seq<UserId>)
    ensures caller in r <==> caller !in users
    ensures forall v :: v != caller ==> (v in r <==> v in users)
    ensures caller !in users ==> r == users + [caller]
    ensures caller in users ==> SelectsInOrder(r, users, u => u != caller)
  {
    FilterSelectsInOrder(users, u => u != caller);
    if caller in users then Filter(users, u => u != caller) else users + [caller]
  }

  /** A list without duplicates stays without duplicates. */
  lemma ToggleKeepsNoDup(users: seq<UserId>, caller: UserId)
    requires NoDup(users)
    ensures NoDup(Toggle(users, caller))
  {
    if caller in users {
      FilterNoDup(users, u => u != caller);
    }
  }

  /** Toggling twice from "not interested" gives back the original list. */
  lemma ToggleTwiceRestores(users: seq<UserId>, caller: UserId)
    requires caller !in users
    ensures Toggle(Toggle(users, caller), caller) == users
  {
    var keep := u => u != caller;
    FilterAppend(users, [caller], keep);
    assert Filter([caller], keep) == [];
    FilterAllKept(users, keep);
  }

  /** Toggling twice from "interested" leaves the caller interested once, at the end. */
  lemma ToggleTwiceMovesToEnd(users: seq<UserId>, caller: UserId)
    requires caller in users
    ensures Toggle(Toggle(users, caller), caller) == Filter(users, u => u != caller) + [caller]
  {
  }

  /** The body of a create request; a `createdBy` the client sends is ignored. */
  datatype EventRequest = EventRequest(title: Option<string>, description: Option<string>, date: Option<int>,
                                       venue: Option<string>, createdBy: Option<UserId>)

  /** The draft `createEvent` builds: the body's four fields and the caller as creator. */
  function DraftFor(body: EventRequest, caller: UserId): (d: EventDraft)
    ensures d.createdBy == Some(caller)
    ensures d.title == body.title && d.description == body.description
    ensures d.date == body.date && d.venue == body.venue
  {
    EventDraft(body.title, body.description, body.date, body.venue, Some(caller))
  }

  datatype CreateReply = Created(event: Event) | CreateFailed(missing: seq<string>)
  {
    function Status(): int {
      if Created? then 201 else 500
    }
  }

  /** The populated creator: `{_id, name}`, or null when the user no longer exists. */
  datatype Creator = Creator(id: UserId, name: string)

  datatype ListedEvent = ListedEvent(event: Event, creator: Option<Creator>)

  /** `populate('createdBy', 'name')` against the users' names. */
  function Populate(e: Event, names: map<UserId, string>): (l: ListedEvent)
    ensures l.event == e
    ensures l.creator.Some? <==> e.createdBy in names
    ensures l.creator.Some? ==> l.creator.value == Creator(e.createdBy, names[e.createdBy])
  {
    ListedEvent(e, if e.createdBy in names then Some(Creator(e.createdBy, names[e.createdBy])) else None)
  }

  datatype InterestReply = Toggled(event: Event) | EventNotFound | InvalidId
  {
    function Status(): int {
      match this
      case Toggled(_) => 200
      case EventNotFound => 404
      case InvalidId => 500
    }
  }

  /** The ids in `order` are exactly the stored ones, each once; every event sits under
      its own id below `nextId`, has its required paths, and lists no user twice. */
  ghost predicate StoreInvariant(events: map<EventId, Event>, order: seq<EventId>, nextId: EventId) {
    && NoDup(order)
    && (forall id :: id in events <==> id in order)
    && (forall k :: 0 <= k < |order| ==> order[k] in events)
    && (forall id :: id in events ==> events[id].id == id && id < nextId && WellFormed(events[id]))
    && (forall id :: id in events ==> NoDup(events[id].interestedUsers))
  }

  /** Toggling one user in a stored event keeps the store invariant. */
  lemma ToggleKeepsInvariant(events: map<EventId, Event>, order: seq<EventId>, nextId: EventId,
                             id: EventId, caller: UserId, now: int)
    requires StoreInvariant(events, order, nextId) && id in events
    ensures var e := events[id];
            StoreInvariant(events[id := e.(interestedUsers := Toggle(e.interestedUsers, caller), updatedAt := now)],
                           order, nextId)
  {
    var e := events[id];
    assert NoDup(e.interestedUsers);
    ToggleKeepsNoDup(e.interestedUsers, caller);
  }

  /** The event collection: documents by id, in insertion order. */
  class EventStore {
    var events: map<EventId, Event>
    var order: seq<EventId>
    var nextId: EventId

    ghost predicate Valid()
      reads this
    {
      StoreInvariant(events, order, nextId)
    }

    constructor ()
      ensures Valid() && events == map[] && order == []
    {
      events, order, nextId := map[], [], 0;
    }

    /** `createEvent`: stores the validated event created by `caller` at time `now`
        (201), or stores nothing when a required path is missing (500). */
    method CreateEvent(caller: UserId, body: EventRequest, now: int) returns (reply: CreateReply)
      requires Valid()
      modifies this
      ensures Valid()
      ensures match Create(old(nextId), DraftFor(body, caller), now)
              case Ok(e) => reply == Created(e) && events == old(events)[e.id := e] && order == old(order) + [e.id]
              case Err(missing) => reply == CreateFailed(missing) && events == old(events) && order == old(order)
      ensures reply.Created? ==> reply.event.createdBy == caller && reply.event.interestedUsers == []
    {
      var id := nextId;
      match Create(id, DraftFor(body, caller), now)
      case Ok(e) =>
        assert id !in order;
        events := events[id := e];
        order := order + [id];
        nextId := nextId + 1;
        reply := Created(e);
      case Err(missing) =>
        reply := CreateFailed(missing);
    }

    /** `getEvents`: every stored event, in insertion order, with its creator populated. */
    method GetEvents(names: map<UserId, string>) returns (list: seq<ListedEvent>)
      requires Valid()
      ensures |list| == |order|
      ensures forall k :: 0 <= k < |list| ==> list[k] == Populate(events[order[k]], names)
      ensures forall id :: id in events ==> exists k :: 0 <= k < |list| && list[k].event == events[id]
    {
      var evs, ord := events, order;
      list := seq(|ord|, k requires 0 <= k < |ord| && ord[k] in evs => Populate(evs[ord[k]], names));
      forall id | id in events
        ensures exists k :: 0 <= k < |list| && list[k].event == events[id]
      {
        var k :| 0 <= k < |order| && order[k] == id;
        assert list[k].event == events[id];
      }
    }

    /** `showInterest`: toggles `caller` in the event's interested list and saves it at
        time `now`; an unknown event (404) or a malformed id (500) changes nothing. */
    method ShowInterest(id: Option<EventId>, caller: UserId, now: int) returns (reply: InterestReply)
      requires Valid()
      modifies this
      ensures Valid()
      ensures order == old(order) && nextId == old(nextId)
      ensures id.None? ==> reply == InvalidId && events == old(events)
      ensures id.Some? && id.value !in old(events) ==> reply == EventNotFound && events == old(events)
      ensures id.Some? && id.value in old(events) ==>
        (var e := old(events)[id.value];
         var e' := e.(interestedUsers := Toggle(e.interestedUsers, caller), updatedAt := now);
         reply == Toggled(e') && events == old(events)[id.value := e'])
    {
      if id.None? {
        reply := InvalidId;
      } else if id.value !in events {
        reply := EventNotFound;
      } else {
        var e := events[id.value];
        var e' := e.(interestedUsers := Toggle(e.interestedUsers, caller), updatedAt := now);
        ToggleKeepsInvariant(events, order, nextId, id.value, caller, now);
        events := events[id.value := e'];
        reply := Toggled(e');
      }
    }
  }
}
