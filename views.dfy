/** The HTTP API (backend/events/views.py): the owner-scoped event endpoints,
    the public share-link lookup, the dashboard statistics and registration.
    Every event endpoint works on `get_queryset()`, the requester's own
    events, so another user's event is answered as not found. Read-only
    endpoints are functions of the tables; the ones that write are methods
    on the database. `now` and the fresh share id are parameters. */
module Views {
  import opened Wrappers
  import opened Text
  import opened Uuids
  import opened Models
  import opened Queries
  import opened Serializers

  /** `request.user`: nobody, or a stored user. */
  datatype Principal = Anonymous | Authenticated(user: UserId)

  datatype HttpMethod = Get | Head | Options | Post | Put | Patch | Delete

  /** `permissions.SAFE_METHODS`. */
  predicate IsSafe(m: HttpMethod)
  {
    m == Get || m == Head || m == Options
  }

  /** The error answers of the event endpoints: 401, 404, 403, 400 with the
      field errors, 500. */
  datatype ApiError = Unauthenticated | NotFound | Forbidden | Invalid(fields: map<EventField, FieldError>) | ServerError

  // ------------------------------------------------------------ permission

  /** `IsOwnerOrReadOnly.has_object_permission`. */
  function HasObjectPermission(m: HttpMethod, user: UserId, e: Event): (r: bool)
    ensures IsSafe(m) ==> r
    ensures !IsSafe(m) ==> (r <==> e.owner == user)
  {
    IsSafe(m) || e.owner == user
  }

  /** `EventViewSet.get_queryset`: the requester's events, by date. */
  function GetQueryset(t: Tables, user: UserId): (r: seq<Event>)
    requires EventsIndexed(t)
    ensures forall e :: e in r ==> e.id in t.events && t.events[e.id] == e && e.owner == user
    ensures forall k :: k in t.events && t.events[k].owner == user ==> t.events[k] in r
    ensures forall i, j :: 0 <= i < j < |r| ==> r[i].dateTime <= r[j].dateTime
    ensures forall e :: e in r ==> multiset(r)[e] == 1
  {
    ForUser(t, user)
  }

  /** The object permission never refuses an event of the scoped set: the
      queryset has already removed every event a write could be refused on. */
  lemma ScopedObjectsAlwaysPermitted(t: Tables, user: UserId, m: HttpMethod)
    requires EventsIndexed(t)
    ensures forall e :: e in GetQueryset(t, user) ==> HasObjectPermission(m, user, e)
  {
  }

  /** `get_object()`: authentication first, then the lookup in the scoped set
      (404 when absent), then the object permission (403). */
  function GetObject(t: Tables, p: Principal, id: EventId, m: HttpMethod): (r: Result<Event, ApiError>)
    requires EventsIndexed(t)
    ensures p.Anonymous? ==> r == Err(Unauthenticated)
    ensures p.Authenticated? ==> (r.Ok? <==> id in t.events && t.events[id].owner == p.user)
    ensures p.Authenticated? && !(id in t.events && t.events[id].owner == p.user) ==> r == Err(NotFound)
    ensures r.Ok? ==> r.value == t.events[id]
    ensures r != Err(Forbidden)
  {
    match p
    case Anonymous => Err(Unauthenticated)
    case Authenticated(user) =>
      if id !in t.events || t.events[id].owner != user then Err(NotFound)
      else
        var e := t.events[id];
        if !HasObjectPermission(m, user, e) then Err(Forbidden) else Ok(e)
  }

  /** What get_object() finds is a member of the scoped set. */
  lemma GetObjectInScope(t: Tables, p: Principal, id: EventId, m: HttpMethod)
    requires EventsIndexed(t)
    requires GetObject(t, p, id, m).Ok?
    ensures GetObject(t, p, id, m).value in GetQueryset(t, p.user)
  {
  }

  // ------------------------------------------------------------ listings

  /** No two rows are of the same event: every event is listed at most once. */
  predicate DistinctIds(r: seq<EventRow>)
  {
    forall i, j :: 0 <= i < j < |r| ==> r[i].id != r[j].id
  }

  /** A row's position key under an ordering, as Queries.Key is for events. */
  function RowKey(o: Order, row: EventRow): int
  {
    match o
    case DateAsc => row.dateTime
    case DateDesc => -row.dateTime
    case CreatedDesc => -row.createdAt
  }

  lemma RowsMembers(s: seq<Event>, now: Time)
    ensures forall row :: row in Rows(s, now) ==> exists e :: e in s && row == RowOf(e, now)
    ensures forall e :: e in s ==> RowOf(e, now) in Rows(s, now)
  {
    var r := Rows(s, now);
    forall row | row in r
      ensures exists e :: e in s && row == RowOf(e, now)
    {
      var i :| 0 <= i < |r| && r[i] == row;
      assert s[i] in s;
    }
    forall e | e in s
      ensures RowOf(e, now) in r
    {
      var i :| 0 <= i < |s| && s[i] == e;
      assert r[i] == RowOf(e, now);
    }
  }

  /** The list rows of the requester's events in a window, in order o: exactly
      those events, once each, as many as the count of them. */
  function ScopedRows(t: Tables, user: UserId, w: Window, o: Order, now: Time): (r: seq<EventRow>)
    requires EventsIndexed(t)
    ensures forall row :: row in r ==> row.id in t.events && t.events[row.id].owner == user
                                       && InWindow(w, t.events[row.id].dateTime) && row == RowOf(t.events[row.id], now)
    ensures forall k :: k in t.events && t.events[k].owner == user && InWindow(w, t.events[k].dateTime) ==>
                          RowOf(t.events[k], now) in r
    ensures forall i, j :: 0 <= i < j < |r| ==> RowKey(o, r[i]) <= RowKey(o, r[j])
    ensures |r| == Count(t.events, Filter(Some(user), w), t.nextEventId)
    ensures DistinctIds(r)
  {
    var f := Filter(Some(user), w);
    var q := Query(t.events, t.nextEventId, f, o);
    var r := Rows(q, now);
    RowsMembers(q, now);
    QueryCountIndependentOfOrder(t.events, t.nextEventId, f, o, o);
    CountIsSelectLength(t.events, f, t.nextEventId);
    RowsKeepOrder(q, o, now);
    RowsDistinct(q, now);
    r
  }

  /** Projecting to list rows keeps the order of the events. */
  lemma RowsKeepOrder(s: seq<Event>, o: Order, now: Time)
    requires SortedBy(s, o)
    ensures forall i, j :: 0 <= i < j < |s| ==> RowKey(o, Rows(s, now)[i]) <= RowKey(o, Rows(s, now)[j])
  {
    var r := Rows(s, now);
    forall i, j | 0 <= i < j < |s|
      ensures RowKey(o, r[i]) <= RowKey(o, r[j])
    {
      assert r[i] == RowOf(s[i], now) && r[j] == RowOf(s[j], now);
      match o
      case DateAsc =>
      case DateDesc =>
      case CreatedDesc =>
    }
  }

  /** `list`: the requester's events, by date (EventListSerializer rows). */
  function List(t: Tables, p: Principal, now: Time): (r: Result<seq<EventRow>, ApiError>)
    requires EventsIndexed(t)
    ensures r.Ok? <==> p.Authenticated?
    ensures r.Err? ==> r.error == Unauthenticated
    ensures r.Ok? ==> forall row :: row in r.value ==>
                        row.id in t.events && t.events[row.id].owner == p.user && row == RowOf(t.events[row.id], now)
    ensures r.Ok? ==> forall k :: k in t.events && t.events[k].owner == p.user ==> RowOf(t.events[k], now) in r.value
    ensures r.Ok? ==> forall i, j :: 0 <= i < j < |r.value| ==> r.value[i].dateTime <= r.value[j].dateTime
    ensures r.Ok? ==> DistinctIds(r.value)
    ensures r.Ok? ==> |r.value| == Count(t.events, Filter(Some(p.user), AnyTime), t.nextEventId)
  {
    match p
    case Anonymous => Err(Unauthenticated)
    case Authenticated(user) => Ok(ScopedRows(t, user, AnyTime, DateAsc, now))
  }

  /** `upcoming`: the requester's events after `now`, soonest first. */
  function UpcomingView(t: Tables, p: Principal, now: Time): (r: Result<seq<EventRow>, ApiError>)
    requires EventsIndexed(t)
    ensures r.Ok? <==> p.Authenticated?
    ensures r.Err? ==> r.error == Unauthenticated
    ensures r.Ok? ==> forall row :: row in r.value ==>
                        row.id in t.events && t.events[row.id].owner == p.user && row.dateTime > now && row.isUpcoming && !row.isPast
    ensures r.Ok? ==> forall k :: k in t.events && t.events[k].owner == p.user && IsUpcoming(t.events[k], now) ==>
                                   RowOf(t.events[k], now) in r.value
    ensures r.Ok? ==> forall i, j :: 0 <= i < j < |r.value| ==> r.value[i].dateTime <= r.value[j].dateTime
    ensures r.Ok? ==> DistinctIds(r.value)
    ensures r.Ok? ==> |r.value| == Count(t.events, Filter(Some(p.user), After(now)), t.nextEventId)
  {
    match p
    case Anonymous => Err(Unauthenticated)
    case Authenticated(user) =>
      UpcomingRowsFlagged(t, user, now);
      Ok(ScopedRows(t, user, After(now), DateAsc, now))
  }

  /** `past`: the requester's events before `now`, most recent first. */
  function PastView(t: Tables, p: Principal, now: Time): (r: Result<seq<EventRow>, ApiError>)
    requires EventsIndexed(t)
    ensures r.Ok? <==> p.Authenticated?
    ensures r.Err? ==> r.error == Unauthenticated
    ensures r.Ok? ==> forall row :: row in r.value ==>
                        row.id in t.events && t.events[row.id].owner == p.user && row.dateTime < now && row.isPast && !row.isUpcoming
    ensures r.Ok? ==> forall k :: k in t.events && t.events[k].owner == p.user && IsPast(t.events[k], now) ==>
                                   RowOf(t.events[k], now) in r.value
    ensures r.Ok? ==> forall i, j :: 0 <= i < j < |r.value| ==> r.value[i].dateTime >= r.value[j].dateTime
    ensures r.Ok? ==> DistinctIds(r.value)
    ensures r.Ok? ==> |r.value| == Count(t.events, Filter(Some(p.user), Before(now)), t.nextEventId)
  {
    match p
    case Anonymous => Err(Unauthenticated)
    case Authenticated(user) =>
      PastRowsNewestFirst(t, user, now);
      Ok(ScopedRows(t, user, Before(now), DateDesc, now))
  }

  /** The rows of the upcoming window are dated after `now` and flagged
      upcoming, never past. */
  lemma UpcomingRowsFlagged(t: Tables, user: UserId, now: Time)
    requires EventsIndexed(t)
    ensures forall row :: row in ScopedRows(t, user, After(now), DateAsc, now) ==>
              row.dateTime > now && row.isUpcoming && !row.isPast
  {
  }

  lemma PastRowsNewestFirst(t: Tables, user: UserId, now: Time)
    requires EventsIndexed(t)
    ensures var r := ScopedRows(t, user, Before(now), DateDesc, now);
            forall i, j :: 0 <= i < j < |r| ==> r[i].dateTime >= r[j].dateTime
  {
    var r := ScopedRows(t, user, Before(now), DateDesc, now);
    forall i, j | 0 <= i < j < |r|
      ensures r[i].dateTime >= r[j].dateTime
    {
      assert RowKey(DateDesc, r[i]) <= RowKey(DateDesc, r[j]);
    }
  }

  // ------------------------------------------------------------ public link

  /** The event carrying share id u among the ids below n, if any. */
  function FindByShare(events: map<EventId, Event>, u: Uuid, n: nat): (r: Option<EventId>)
    ensures r.Some? ==> r.value in events && events[r.value].shareId == Some(u) && r.value < n
    ensures r.None? ==> forall k :: k in events && k < n ==> events[k].shareId != Some(u)
  {
    if n == 0 then None
    else if n - 1 in events && events[n - 1].shareId == Some(u) then Some(n - 1)
    else FindByShare(events, u, n - 1)
  }

  /** `public_event_detail`: no authentication; a share id that does not
      parse or that no event carries is answered as not found. */
  function PublicEventDetail(t: Tables, shareId: string): (r: Result<PublicEvent, ApiError>)
    requires EventsIndexed(t) && OwnersStored(t)
    ensures r.Ok? <==> Parse(shareId).Some? && !ShareIdFree(t.events, Parse(shareId).value)
    ensures r.Ok? ==> exists k :: k in t.events && t.events[k].shareId == Parse(shareId)
                                  && r.value == PublicView(t.events[k], t.users[t.events[k].owner])
    ensures r.Err? ==> r.error == NotFound
  {
    match Parse(shareId)
    case None => Err(NotFound)
    case Some(u) =>
      match FindByShare(t.events, u, t.nextEventId)
      case None => Err(NotFound)
      case Some(k) => Ok(PublicView(t.events[k], t.users[t.events[k].owner]))
  }

  /** The link of a shared event leads to that event, whoever follows it. */
  lemma ShareLinkResolves(t: Tables, k: EventId)
    requires TablesValid(t)
    requires k in t.events && t.events[k].shareId.Some?
    ensures PublicEventDetail(t, Format(t.events[k].shareId.value)) == Ok(PublicView(t.events[k], t.users[t.events[k].owner]))
  {
    var u := t.events[k].shareId.value;
    FormatParseRoundTrip(u);
    var f := FindByShare(t.events, u, t.nextEventId);
    assert f.Some?;
    assert f.value == k;
  }

  // ------------------------------------------------------------ dashboard

  /** The dashboard figures. */
  datatype Stats = Stats(total: nat, upcoming: nat, past: nat, recent: seq<EventRow>)

  /** Up to five of the requester's events, newest first by creation time. */
  function RecentEvents(t: Tables, user: UserId, now: Time): (r: seq<EventRow>)
    requires EventsIndexed(t)
    ensures |r| == if Count(t.events, Filter(Some(user), AnyTime), t.nextEventId) < 5 then
                     Count(t.events, Filter(Some(user), AnyTime), t.nextEventId) else 5
    ensures forall row :: row in r ==> row.id in t.events && t.events[row.id].owner == user
                                       && row == RowOf(t.events[row.id], now)
    ensures forall i, j :: 0 <= i < j < |r| ==> r[i].createdAt >= r[j].createdAt
    ensures forall k, i :: k in t.events && t.events[k].owner == user && RowOf(t.events[k], now) !in r && 0 <= i < |r| ==>
                             t.events[k].createdAt <= r[i].createdAt
    ensures DistinctIds(r)
  {
    var q := Query(t.events, t.nextEventId, Filter(Some(user), AnyTime), CreatedDesc);
    RecentCount(t, user, now);
    RecentMembers(t, user, now);
    TakeRowsDistinct(q, 5, now);
    Rows(Take(q, 5), now)
  }

  /** The newest-first prefix holds min(5, count) rows. */
  lemma RecentCount(t: Tables, user: UserId, now: Time)
    requires EventsIndexed(t)
    ensures var n := Count(t.events, Filter(Some(user), AnyTime), t.nextEventId);
            |Rows(Take(Query(t.events, t.nextEventId, Filter(Some(user), AnyTime), CreatedDesc), 5), now)|
              == if n < 5 then n else 5
  {
    var f := Filter(Some(user), AnyTime);
    QueryCountIndependentOfOrder(t.events, t.nextEventId, f, CreatedDesc, CreatedDesc);
    CountIsSelectLength(t.events, f, t.nextEventId);
  }

  /** The newest-first prefix: rows of the user's events, newest first, and no
      event of theirs left out is newer than a row kept. */
  lemma RecentMembers(t: Tables, user: UserId, now: Time)
    requires EventsIndexed(t)
    ensures var r := Rows(Take(Query(t.events, t.nextEventId, Filter(Some(user), AnyTime), CreatedDesc), 5), now);
            && (forall row :: row in r ==> row.id in t.events && t.events[row.id].owner == user
                                           && row == RowOf(t.events[row.id], now))
            && (forall i, j :: 0 <= i < j < |r| ==> r[i].createdAt >= r[j].createdAt)
            && (forall k, i :: k in t.events && t.events[k].owner == user && RowOf(t.events[k], now) !in r && 0 <= i < |r| ==>
                                 t.events[k].createdAt <= r[i].createdAt)
  {
    var q := Query(t.events, t.nextEventId, Filter(Some(user), AnyTime), CreatedDesc);
    NewestFirstPrefix(q, 5, now);
  }

  /** Rows of events with distinct ids have distinct ids. */
  lemma RowsDistinct(s: seq<Event>, now: Time)
    requires forall i, j :: 0 <= i < j < |s| ==> s[i].id != s[j].id
    ensures DistinctIds(Rows(s, now))
  {
  }

  /** The rows of a prefix of events with distinct ids have distinct ids. */
  lemma TakeRowsDistinct(q: seq<Event>, k: nat, now: Time)
    requires forall i, j :: 0 <= i < j < |q| ==> q[i].id != q[j].id
    ensures DistinctIds(Rows(Take(q, k), now))
  {
    var top := Take(q, k);
    assert forall i, j :: 0 <= i < j < |top| ==> top[i] == q[i] && top[j] == q[j];
    RowsDistinct(top, now);
  }

  /** The first k rows of a newest-first list: rows of the list, newest first,
      and no row left out is newer than one kept. */
  lemma NewestFirstPrefix(q: seq<Event>, k: nat, now: Time)
    requires SortedBy(q, CreatedDesc)
    ensures var r := Rows(Take(q, k), now);
            && (forall row :: row in r ==> exists e :: e in q && row == RowOf(e, now))
            && (forall i, j :: 0 <= i < j < |r| ==> r[i].createdAt >= r[j].createdAt)
            && (forall e, i :: e in q && RowOf(e, now) !in r && 0 <= i < |r| ==> e.createdAt <= r[i].createdAt)
  {
    var top := Take(q, k);
    var r := Rows(top, now);
    RowsMembers(top, now);
    assert SortedBy(top, CreatedDesc);
    RowsKeepOrder(top, CreatedDesc, now);
    forall i, j | 0 <= i < j < |r|
      ensures r[i].createdAt >= r[j].createdAt
    {
      assert RowKey(CreatedDesc, r[i]) <= RowKey(CreatedDesc, r[j]);
    }
    forall row | row in r
      ensures exists e :: e in q && row == RowOf(e, now)
    {
      var e :| e in top && row == RowOf(e, now);
      var i :| 0 <= i < |top| && top[i] == e;
      assert q[i] == e;
    }
    forall e, i | e in q && RowOf(e, now) !in r && 0 <= i < |r|
      ensures e.createdAt <= r[i].createdAt
    {
      RecentAreNewest(q, top, e, i, now);
    }
  }

  /** An event of a newest-first list that did not make its first rows is no
      newer than any of them. */
  lemma RecentAreNewest(q: seq<Event>, top: seq<Event>, e: Event, i: nat, now: Time)
    requires SortedBy(q, CreatedDesc)
    requires |top| <= |q| && top == q[..|top|] && i < |top|
    requires e in q && RowOf(e, now) !in Rows(top, now)
    ensures e.createdAt <= top[i].createdAt
  {
    var j :| 0 <= j < |q| && q[j] == e;
    if j < |top| {
      assert false;
    }
    assert Key(CreatedDesc, q[i]) <= Key(CreatedDesc, q[j]);
  }

  /** `dashboard_stats`: the counts of the requester's events in total, after
      `now` and before `now`, and the five most recently created. */
  function DashboardStats(t: Tables, p: Principal, now: Time): (r: Result<Stats, ApiError>)
    requires EventsIndexed(t)
    ensures r.Ok? <==> p.Authenticated?
    ensures r.Err? ==> r.error == Unauthenticated
    ensures r.Ok? ==> r.value.total == |GetQueryset(t, p.user)|
    ensures r.Ok? ==> r.value.total == r.value.upcoming + r.value.past + Count(t.events, Filter(Some(p.user), At(now)), t.nextEventId)
    ensures r.Ok? ==> r.value.upcoming == |UpcomingView(t, p, now).value| && r.value.past == |PastView(t, p, now).value|
    ensures r.Ok? ==> |r.value.recent| == if r.value.total < 5 then r.value.total else 5
    ensures r.Ok? ==> forall row :: row in r.value.recent ==> row.id in t.events && t.events[row.id].owner == p.user
    ensures r.Ok? ==> forall i, j :: 0 <= i < j < |r.value.recent| ==> r.value.recent[i].createdAt >= r.value.recent[j].createdAt
    ensures r.Ok? ==> r.value.recent == RecentEvents(t, p.user, now)
  {
    match p
    case Anonymous => Err(Unauthenticated)
    case Authenticated(user) =>
      var total := Count(t.events, Filter(Some(user), AnyTime), t.nextEventId);
      var upcoming := Count(t.events, Filter(Some(user), After(now)), t.nextEventId);
      var past := Count(t.events, Filter(Some(user), Before(now)), t.nextEventId);
      WindowsPartition(t.events, Some(user), now, t.nextEventId);
      QueryCountIndependentOfOrder(t.events, t.nextEventId, Filter(Some(user), AnyTime), DateAsc, DateAsc);
      CountIsSelectLength(t.events, Filter(Some(user), AnyTime), t.nextEventId);
      Ok(Stats(total, upcoming, past, RecentEvents(t, user, now)))
  }

  /** The dashboard's upcoming and past figures together never exceed the
      total; what they leave out are exactly the events dated at `now`. */
  lemma DashboardEventsAtNow(t: Tables, user: UserId, now: Time)
    requires EventsIndexed(t)
    ensures var s := DashboardStats(t, Authenticated(user), now).value;
            && s.upcoming + s.past <= s.total
            && s.total - (s.upcoming + s.past) == |ScopedRows(t, user, At(now), DateAsc, now)|
  {
  }

  // ------------------------------------------------------------ writes

  /** `create`: the serializer validates a new event, `EventSerializer.create`
      sets the owner to the requester whatever the body says, and `save()`
      runs full_clean() before inserting the row under the next id. */
  method CreateEvent(db: Database, p: Principal, payload: EventPayload, now: Time) returns (r: Result<Event, ApiError>)
    requires db.Valid()
    requires p.Authenticated? ==> p.user in db.users
    modifies db
    ensures db.Valid()
    ensures p.Anonymous? ==> r == Err(Unauthenticated)
    ensures p.Authenticated? ==> (r.Ok? <==> EventPayloadValid(payload, false, false, now))
    ensures p.Authenticated? && !EventPayloadValid(payload, false, false, now) ==>
              r == Err(Invalid(ValidateEvent(payload, false, false, now).error))
    ensures r.Err? ==> db.Snapshot() == old(db.Snapshot())
    ensures r.Ok? ==>
              && r.value == Event(old(db.nextEventId), Strip(payload.title.value), payload.dateTime.value,
                                  Strip(payload.location.value),
                                  if payload.description.Some? && payload.description.value.Some?
                                  then Some(Strip(payload.description.value.value)) else None,
                                  None, p.user, now, now)
              && db.events == old(db.events)[r.value.id := r.value]
              && db.nextEventId == old(db.nextEventId) + 1
              && db.users == old(db.users) && db.nextUserId == old(db.nextUserId)
  {
    if p.Anonymous? {
      return Err(Unauthenticated);
    }
    var v := ValidateEvent(payload, false, false, now);
    if v.Err? {
      return Err(Invalid(v.error));
    }
    ValidatedEventPassesFullClean(payload, now);
    var e := CreateValidatedEvent(db, v.value, p.user, now);
    r := Ok(e);
  }

  /** `update` (PUT, or PATCH when partial): the instance comes from the
      scoped set, the serializer validates with an instance (so a past date is
      accepted), the submitted fields replace the instance's and `save()`
      writes the row again with `updated_at` set. */
  method UpdateEvent(db: Database, p: Principal, id: EventId, payload: EventPayload, partial: bool, now: Time)
    returns (r: Result<Event, ApiError>)
    requires db.Valid()
    modifies db
    ensures db.Valid()
    ensures GetObject(old(db.Snapshot()), p, id, if partial then Patch else Put).Err? ==>
              r == Err(GetObject(old(db.Snapshot()), p, id, if partial then Patch else Put).error)
    ensures GetObject(old(db.Snapshot()), p, id, if partial then Patch else Put).Ok? ==>
              (r.Ok? <==> EventPayloadValid(payload, true, partial, now))
    ensures GetObject(old(db.Snapshot()), p, id, if partial then Patch else Put).Ok?
            && !EventPayloadValid(payload, true, partial, now) ==>
              r == Err(Invalid(ValidateEvent(payload, true, partial, now).error))
    ensures r.Err? ==> db.Snapshot() == old(db.Snapshot())
    ensures r.Ok? ==>
              && p.Authenticated? && id in old(db.events) && old(db.events)[id].owner == p.user
              && r.value == ApplyUpdate(old(db.events)[id], ValidateEvent(payload, true, partial, now).value).(updatedAt := now)
              && db.events == old(db.events)[id := r.value]
              && db.users == old(db.users) && db.nextUserId == old(db.nextUserId) && db.nextEventId == old(db.nextEventId)
  {
    var o := GetObject(db.Snapshot(), p, id, if partial then Patch else Put);
    if o.Err? {
      return Err(o.error);
    }
    var v := ValidateEvent(payload, true, partial, now);
    if v.Err? {
      return Err(Invalid(v.error));
    }
    ValidatedUpdatePassesFullClean(o.value, payload, partial, now);
    var e := SaveUpdate(db, o.value, v.value, now);
    r := Ok(e);
  }

  /** `serializer.save()` on an update: the stored row is loaded, the validated
      attributes are set on it, and `save()` runs full_clean() (which a valid
      row passes unchanged) and writes the row with `updated_at` set. */
  method SaveUpdate(db: Database, stored: Event, d: EventData, now: Time) returns (e: Event)
    requires db.Valid()
    requires stored.id in db.events && db.events[stored.id] == stored
    requires StoredValid(ApplyUpdate(stored, d))
    modifies db
    ensures db.Valid()
    ensures e == ApplyUpdate(stored, d).(updatedAt := now)
    ensures db.events == old(db.events)[stored.id := e]
    ensures db.users == old(db.users) && db.nextUserId == old(db.nextUserId) && db.nextEventId == old(db.nextEventId)
  {
    e := CleanUpdated(stored, d, now);
    ReplaceEventKeepsValid(db.Snapshot(), e);
    db.events := db.events[stored.id := e];
  }

  /** The stored row loaded into an instance, given the validated attributes
      and passed through full_clean(); `updated_at` is stamped on save. */
  method CleanUpdated(stored: Event, d: EventData, now: Time) returns (e: Event)
    requires StoredValid(ApplyUpdate(stored, d))
    ensures e == ApplyUpdate(stored, d).(updatedAt := now)
  {
    var id := stored.id;
    var instance := new EventInstance.Load(stored);
    SetValidatedAttributes(instance, d, id);
    ghost var updated := instance.Row(id);
    assert Unpadded(instance.title) && Unpadded(instance.location);
    StoredRowPassesFullClean(updated, now);
    FullCleanAgreesOnTrimmedInput(updated.title, updated.location, updated.dateTime, false, now);
    var errs := instance.FullCleanInPlace(now);
    assert errs == [];
    instance.updatedAt := now;
    e := instance.Row(id);
    assert e == updated.(updatedAt := now);
  }

  /** `destroy`: deletes the scoped event and answers with its title. */
  method DestroyEvent(db: Database, p: Principal, id: EventId) returns (r: Result<string, ApiError>)
    requires db.Valid()
    modifies db
    ensures db.Valid()
    ensures GetObject(old(db.Snapshot()), p, id, Delete).Err? ==>
              r == Err(GetObject(old(db.Snapshot()), p, id, Delete).error)
    ensures r.Ok? <==> GetObject(old(db.Snapshot()), p, id, Delete).Ok?
    ensures r.Err? ==> db.Snapshot() == old(db.Snapshot())
    ensures r.Ok? ==>
              && r.value == "Event \"" + old(db.events)[id].title + "\" deleted successfully"
              && db.events == old(db.events) - {id}
              && (forall k :: k in old(db.events) && k != id ==> k in db.events && db.events[k] == old(db.events)[k])
              && db.users == old(db.users) && db.nextUserId == old(db.nextUserId) && db.nextEventId == old(db.nextEventId)
  {
    var o := GetObject(db.Snapshot(), p, id, Delete);
    if o.Err? {
      return Err(o.error);
    }
    var title := o.value.title;
    RemoveEventKeepsValid(db.Snapshot(), id);
    db.events := db.events - {id};
    r := Ok("Event \"" + title + "\" deleted successfully");
  }

  /** `generate_share_link`: a shared event keeps its share id; otherwise the
      fresh id is set and `save(update_fields=['share_id'])` runs full_clean()
      (whose uniqueness check refuses an id already in use, answered as 500)
      and then writes that one column. The answer is the share id. */
  method GenerateShareLink(db: Database, p: Principal, id: EventId, newShareId: Uuid, now: Time) returns (r: Result<string, ApiError>)
    requires db.Valid()
    modifies db
    ensures db.Valid()
    ensures GetObject(old(db.Snapshot()), p, id, Post).Err? ==>
              r == Err(GetObject(old(db.Snapshot()), p, id, Post).error) && db.Snapshot() == old(db.Snapshot())
    ensures GetObject(old(db.Snapshot()), p, id, Post).Ok? && old(db.events)[id].shareId.Some? ==>
              r == Ok(Format(old(db.events)[id].shareId.value)) && db.Snapshot() == old(db.Snapshot())
    ensures GetObject(old(db.Snapshot()), p, id, Post).Ok? && old(db.events)[id].shareId.None? ==>
              if ShareIdFree(old(db.events), newShareId) then
                && r == Ok(Format(newShareId))
                && db.events == old(db.events)[id := old(db.events)[id].(shareId := Some(newShareId))]
                && db.users == old(db.users) && db.nextUserId == old(db.nextUserId) && db.nextEventId == old(db.nextEventId)
              else r == Err(ServerError) && db.Snapshot() == old(db.Snapshot())
    ensures r.Ok? ==> PublicEventDetail(db.Snapshot(), r.value) == Ok(PublicView(db.events[id], db.users[db.events[id].owner]))
  {
    var o := GetObject(db.Snapshot(), p, id, Post);
    if o.Err? {
      return Err(o.error);
    }
    var e := o.value;
    if e.shareId.None? {
      var saved := SaveShareId(db, e, newShareId, now);
      if !saved {
        return Err(ServerError);
      }
    }
    r := Ok(Format(db.events[id].shareId.value));
    ShareLinkResolves(db.Snapshot(), id);
  }

  /** `save(update_fields=['share_id'])` on an event without a share id:
      full_clean() passes the stored columns and then refuses a share id that
      another event holds; otherwise only the share id column is written. */
  method SaveShareId(db: Database, stored: Event, newShareId: Uuid, now: Time) returns (saved: bool)
    requires db.Valid()
    requires stored.id in db.events && db.events[stored.id] == stored && stored.shareId.None?
    modifies db
    ensures db.Valid()
    ensures saved <==> ShareIdFree(old(db.events), newShareId)
    ensures db.events == if saved then old(db.events)[stored.id := stored.(shareId := Some(newShareId))] else old(db.events)
    ensures db.users == old(db.users) && db.nextUserId == old(db.nextUserId) && db.nextEventId == old(db.nextEventId)
  {
    var e := CleanWithShareId(stored, newShareId, now);
    if !ShareIdFree(db.events, newShareId) {
      return false;
    }
    ReplaceEventKeepsValid(db.Snapshot(), e);
    db.events := db.events[stored.id := e];
    saved := true;
  }

  /** The stored row loaded into an instance, given the share id and passed
      through full_clean() up to the uniqueness check: a valid stored row
      passes unchanged. */
  method CleanWithShareId(stored: Event, newShareId: Uuid, now: Time) returns (e: Event)
    requires StoredValid(stored)
    ensures e == stored.(shareId := Some(newShareId))
  {
    var instance := new EventInstance.Load(stored);
    instance.shareId := Some(newShareId);
    StoredRowPassesFullClean(stored, now);
    FullCleanAgreesOnTrimmedInput(stored.title, stored.location, stored.dateTime, false, now);
    var errs := instance.FullCleanInPlace(now);
    assert errs == [];
    e := instance.Row(stored.id);
  }

  // ------------------------------------------------------------ registration

  /** The answers of `register_user` besides success: 400 with the field
      errors, or 500 when saving fails. */
  datatype RegisterError = RegistrationInvalid(fields: map<RegistrationField, FieldError>) | RegistrationFailed

  /** `register_user`: validates, creates the user through the serializer and
      answers with the new user's profile. A registered user can log in at
      once with the email and password they registered with. */
  method RegisterUser(db: Database, payload: RegistrationPayload, passwordAccepted: string -> bool)
    returns (r: Result<Profile, RegisterError>)
    requires db.Valid()
    modifies db
    ensures db.Valid()
    ensures r.Ok? <==> RegistrationValid(old(db.users), payload, passwordAccepted)
    ensures r.Err? ==> r == Err(RegistrationInvalid(ValidateRegistration(old(db.users), payload, passwordAccepted).error))
    ensures r.Err? ==> db.Snapshot() == old(db.Snapshot())
    ensures r.Ok? ==>
              var id := old(db.nextUserId);
              && db.users == old(db.users)[id := User(id, Lower(Strip(payload.email.value)),
                                                       Strip(payload.firstName.value), Strip(payload.lastName.value),
                                                       UsablePassword(Strip(payload.password.value)), false, false, true)]
              && r.value == ProfileOf(db.users[id])
              && db.nextUserId == id + 1
              && db.events == old(db.events) && db.nextEventId == old(db.nextEventId)
              && Login(db.Snapshot(), payload.email, payload.password) == Ok(id)
  {
    var v := ValidateRegistration(db.users, payload, passwordAccepted);
    if v.Err? {
      return Err(RegistrationInvalid(v.error));
    }
    var data := v.value;
    ManagerEmailIdempotent(payload.email.value);
    var c := CreateRegisteredUser(db, data);
    r := if c.Ok? then Ok(ProfileOf(db.users[c.value])) else Err(RegistrationFailed);
    StoredUserCanLogIn(db.Snapshot(), c.value, payload.email.value, payload.password.value);
  }
}
