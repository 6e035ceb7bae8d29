/** Reading the events table: the filters and orderings the event manager and
    the views use (backend/events/models.py, backend/events/views.py). A query
    is a filter over the table followed by an ordering; the table is scanned in
    ascending id order and a sort is stable, so ties keep ascending ids. */
module Queries {
  import opened Wrappers
  import opened Models

  /** A condition on `date_time` relative to an instant. */
  datatype Window = AnyTime | After(t: Time) | Before(t: Time) | At(t: Time)

  /** `filter(user=..., date_time__gt/lt=...)`: an optional owner and a window. */
  datatype Filter = Filter(owner: Option<UserId>, window: Window)

  /** `order_by('date_time')`, `order_by('-date_time')`, `order_by('-created_at')`. */
  datatype Order = DateAsc | DateDesc | CreatedDesc

  predicate InWindow(w: Window, dateTime: Time)
  {
    match w
    case AnyTime => true
    case After(t) => dateTime > t
    case Before(t) => dateTime < t
    case At(t) => dateTime == t
  }

  predicate Matches(f: Filter, e: Event)
  {
    (f.owner.Some? ==> e.owner == f.owner.value) && InWindow(f.window, e.dateTime)
  }

  /** The rows with id below n that match f, in ascending id order; each once. */
  function Select(events: map<EventId, Event>, f: Filter, n: nat): (r: seq<Event>)
    requires KeysAreIds(events)
    ensures forall e :: e in r <==> e.id < n && e.id in events && events[e.id] == e && Matches(f, e)
    ensures forall i, j :: 0 <= i < j < |r| ==> r[i].id < r[j].id
  {
    if n == 0 then []
    else
      var r := Select(events, f, n - 1);
      if n - 1 in events && Matches(f, events[n - 1]) then
        var x := events[n - 1];
        assert forall e :: e in r ==> e.id < n - 1;
        r + [x]
      else r
  }

  /** Rows with strictly increasing ids hold each row exactly once. */
  lemma {:induction false} IncreasingIdsOnce(s: seq<Event>)
    requires forall i, j :: 0 <= i < j < |s| ==> s[i].id < s[j].id
    ensures forall e :: e in s ==> multiset(s)[e] == 1
  {
    if s != [] {
      var t, x := s[..|s| - 1], s[|s| - 1];
      assert s == t + [x];
      IncreasingIdsOnce(t);
      assert forall e :: e in t ==> e.id < x.id;
      assert multiset(t)[x] == 0;
    }
  }

  /** A sequence holding each of its elements once has no repeated entry. */
  lemma OnceMeansDistinct(s: seq<Event>, i: nat, j: nat)
    requires forall e :: e in s ==> multiset(s)[e] == 1
    requires i < j < |s|
    ensures s[i] != s[j]
  {
    assert s == s[..j] + s[j..];
    assert s[i] in s[..j] && s[j] in s[j..];
    assert multiset(s)[s[j]] == multiset(s[..j])[s[j]] + multiset(s[j..])[s[j]];
  }

  /** The sort key: ascending keys give the requested order. */
  function Key(o: Order, e: Event): int
  {
    match o
    case DateAsc => e.dateTime
    case DateDesc => -e.dateTime
    case CreatedDesc => -e.createdAt
  }

  predicate SortedBy(s: seq<Event>, o: Order)
  {
    forall i, j :: 0 <= i < j < |s| ==> Key(o, s[i]) <= Key(o, s[j])
  }

  /** Places x in front of the first element whose key is not smaller. */
  function Insert(x: Event, s: seq<Event>, o: Order): (r: seq<Event>)
    ensures multiset(r) == multiset(s) + multiset{x}
  {
    if s == [] then [x]
    else if Key(o, x) <= Key(o, s[0]) then [x] + s
    else
      assert s == [s[0]] + s[1..];
      [s[0]] + Insert(x, s[1..], o)
  }

  /** A key bound that holds for x and for every element of s holds for
      every element of the insertion. */
  lemma {:induction false} InsertBound(x: Event, s: seq<Event>, o: Order, k: int)
    requires k <= Key(o, x)
    requires forall i :: 0 <= i < |s| ==> k <= Key(o, s[i])
    ensures forall i :: 0 <= i < |Insert(x, s, o)| ==> k <= Key(o, Insert(x, s, o)[i])
  {
    if s != [] && Key(o, x) > Key(o, s[0]) {
      InsertBound(x, s[1..], o, k);
    }
  }

  /** Inserting into a sorted sequence keeps it sorted. */
  lemma {:induction false} InsertSorted(x: Event, s: seq<Event>, o: Order)
    requires SortedBy(s, o)
    ensures SortedBy(Insert(x, s, o), o)
  {
    if s != [] && Key(o, x) > Key(o, s[0]) {
      var rest := Insert(x, s[1..], o);
      InsertSorted(x, s[1..], o);
      InsertBound(x, s[1..], o, Key(o, s[0]));
      var r := [s[0]] + rest;
      assert forall i :: 0 < i < |r| ==> r[i] == rest[i - 1];
    }
  }

  /** The rows of s in order o; a permutation of s. */
  function SortBy(s: seq<Event>, o: Order): (r: seq<Event>)
    ensures SortedBy(r, o)
    ensures multiset(r) == multiset(s)
  {
    if s == [] then []
    else
      assert s == [s[0]] + s[1..];
      var t := SortBy(s[1..], o);
      InsertSorted(s[0], t, o);
      Insert(s[0], t, o)
  }

  /** A query: the rows matching f, in order o, each matching row exactly once. */
  function Query(events: map<EventId, Event>, n: nat, f: Filter, o: Order): (r: seq<Event>)
    requires KeysAreIds(events)
    ensures forall e :: e in r <==> e.id < n && e.id in events && events[e.id] == e && Matches(f, e)
    ensures forall e :: e in r ==> multiset(r)[e] == 1
    ensures forall i, j :: 0 <= i < j < |r| ==> r[i].id != r[j].id
    ensures SortedBy(r, o)
  {
    var s := Select(events, f, n);
    IncreasingIdsOnce(s);
    var r := SortBy(s, o);
    assert forall e :: e in r <==> e in multiset(r);
    assert forall e :: e in s <==> e in multiset(s);
    forall i, j | 0 <= i < j < |r|
      ensures r[i].id != r[j].id
    {
      OnceMeansDistinct(r, i, j);
      assert r[i] in r && r[j] in r;
    }
    r
  }

  /** Slicing `[:k]`: at most the first k rows. */
  function Take(s: seq<Event>, k: nat): (r: seq<Event>)
    ensures |r| == if |s| < k then |s| else k
    ensures r == s[..|r|]
  {
    if |s| <= k then s else s[..k]
  }

  /** The ordered rows for f put back in order o are the same rows, so the
      number of matches does not depend on the ordering. */
  lemma QueryCountIndependentOfOrder(events: map<EventId, Event>, n: nat, f: Filter, o1: Order, o2: Order)
    requires KeysAreIds(events)
    ensures |Query(events, n, f, o1)| == |Select(events, f, n)| == |Query(events, n, f, o2)|
  {
    var s := Select(events, f, n);
    assert |multiset(SortBy(s, o1))| == |multiset(s)|;
    assert |multiset(SortBy(s, o2))| == |multiset(s)|;
  }

  /** `.count()`: the number of rows with id below n that match f. */
  function Count(events: map<EventId, Event>, f: Filter, n: nat): (r: nat)
    ensures r <= n
    ensures (forall k :: 0 <= k < n ==> k !in events) ==> r == 0
  {
    if n == 0 then 0
    else Count(events, f, n - 1) + if n - 1 in events && Matches(f, events[n - 1]) then 1 else 0
  }

  /** Counting the matches gives the length of the selection. */
  lemma {:induction false} CountIsSelectLength(events: map<EventId, Event>, f: Filter, n: nat)
    requires KeysAreIds(events)
    ensures Count(events, f, n) == |Select(events, f, n)|
  {
    if n > 0 {
      CountIsSelectLength(events, f, n - 1);
      SelectCountStep(events, f, n);
    }
  }

  /** Every row falls in exactly one of the windows after / before / at an
      instant, so the three counts add up to the unrestricted count. */
  lemma {:induction false} WindowsPartition(events: map<EventId, Event>, owner: Option<UserId>, now: Time, n: nat)
    ensures Count(events, Filter(owner, AnyTime), n)
            == Count(events, Filter(owner, After(now)), n) + Count(events, Filter(owner, Before(now)), n)
               + Count(events, Filter(owner, At(now)), n)
  {
    if n > 0 {
      WindowsPartition(events, owner, now, n - 1);
    }
  }

  /** One more row scanned adds one to the count exactly when it matches. */
  lemma SelectCountStep(events: map<EventId, Event>, f: Filter, n: nat)
    requires KeysAreIds(events) && n > 0
    ensures |Select(events, f, n)| == |Select(events, f, n - 1)| + if n - 1 in events && Matches(f, events[n - 1]) then 1 else 0
  {
  }

  // ------------------------------------------------- EventManager

  /** `Event.objects.upcoming()`: every event after `now`, soonest first. */
  function Upcoming(t: Tables, now: Time): (r: seq<Event>)
    requires KeysAreIds(t.events)
    ensures forall e :: e in r <==> e.id < t.nextEventId && e.id in t.events && t.events[e.id] == e && e.dateTime > now
    ensures forall i, j :: 0 <= i < j < |r| ==> r[i].dateTime <= r[j].dateTime
    ensures forall e :: e in r ==> multiset(r)[e] == 1
  {
    Query(t.events, t.nextEventId, Filter(None, After(now)), DateAsc)
  }

  /** `Event.objects.past()`: every event before `now`, most recent first. */
  function Past(t: Tables, now: Time): (r: seq<Event>)
    requires KeysAreIds(t.events)
    ensures forall e :: e in r <==> e.id < t.nextEventId && e.id in t.events && t.events[e.id] == e && e.dateTime < now
    ensures forall i, j :: 0 <= i < j < |r| ==> r[i].dateTime >= r[j].dateTime
    ensures forall e :: e in r ==> multiset(r)[e] == 1
  {
    var r := Query(t.events, t.nextEventId, Filter(None, Before(now)), DateDesc);
    assert forall i, j :: 0 <= i < j < |r| ==> Key(DateDesc, r[i]) <= Key(DateDesc, r[j]);
    r
  }

  /** `Event.objects.for_user(user)`: exactly that user's events, in the
      model's default order (by date). */
  function ForUser(t: Tables, user: UserId): (r: seq<Event>)
    requires KeysAreIds(t.events)
    ensures forall e :: e in r <==> e.id < t.nextEventId && e.id in t.events && t.events[e.id] == e && e.owner == user
    ensures forall i, j :: 0 <= i < j < |r| ==> r[i].dateTime <= r[j].dateTime
    ensures forall e :: e in r ==> multiset(r)[e] == 1
  {
    Query(t.events, t.nextEventId, Filter(Some(user), AnyTime), DateAsc)
  }

  /** `Event.objects.upcoming_for_user(user)`: that user's events after `now`, soonest first. */
  function UpcomingForUser(t: Tables, user: UserId, now: Time): (r: seq<Event>)
    requires KeysAreIds(t.events)
    ensures forall e :: e in r <==> e.id < t.nextEventId && e.id in t.events && t.events[e.id] == e
                                    && e.owner == user && e.dateTime > now
    ensures forall i, j :: 0 <= i < j < |r| ==> r[i].dateTime <= r[j].dateTime
    ensures forall e :: e in r ==> multiset(r)[e] == 1
  {
    Query(t.events, t.nextEventId, Filter(Some(user), After(now)), DateAsc)
  }

  /** A user's upcoming events are exactly the upcoming events they own. */
  lemma UpcomingForUserIsUpcomingOwned(t: Tables, user: UserId, now: Time)
    requires KeysAreIds(t.events)
    ensures forall e :: e in UpcomingForUser(t, user, now) <==> e in Upcoming(t, now) && e.owner == user
    ensures forall e :: e in UpcomingForUser(t, user, now) <==> e in ForUser(t, user) && IsUpcoming(e, now)
  {
  }
}
