/** The events-table route: an anonymous viewer gets an empty table and a
    prompt to log in; a logged-in viewer gets one view per selected event,
    where the selection drops deleted events, orders by day and keeps at
    most one page of them. */
module EventsTable {
  import opened Common
  import opened Domain
  import opened EventViews

  const PageSize: nat := 20
  const LoginRequiredMessage: string := "Vui lòng đăng nhập để xem lịch."

  /** The events whose status is not "deleted", each kept as often as it occurs. */
  function NotDeleted(events: seq<Event>): (r: seq<Event>)
    ensures forall e :: multiset(r)[e] == if e.status != StatusDeleted then multiset(events)[e] else 0
    ensures forall k :: 0 <= k < |r| ==> r[k].status != StatusDeleted
    decreases |events|
  {
    if |events| == 0 then []
    else
      var rest := NotDeleted(events[1..]);
      var r := if events[0].status != StatusDeleted then [events[0]] + rest else rest;
      NotDeletedStep(events, rest, r);
      r
  }

  /** The step of `NotDeleted` that decides the first event. */
  lemma NotDeletedStep(events: seq<Event>, rest: seq<Event>, r: seq<Event>)
    requires |events| > 0
    requires forall e :: multiset(rest)[e] == if e.status != StatusDeleted then multiset(events[1..])[e] else 0
    requires forall k :: 0 <= k < |rest| ==> rest[k].status != StatusDeleted
    requires r == if events[0].status != StatusDeleted then [events[0]] + rest else rest
    ensures forall e :: multiset(r)[e] == if e.status != StatusDeleted then multiset(events)[e] else 0
    ensures forall k :: 0 <= k < |r| ==> r[k].status != StatusDeleted
  {
    assert events == [events[0]] + events[1..];
    assert multiset(events) == multiset{events[0]} + multiset(events[1..]);
    if events[0].status != StatusDeleted {
      assert multiset(r) == multiset{events[0]} + multiset(rest);
      assert forall k :: 1 <= k < |r| ==> r[k] == rest[k - 1];
    }
  }

  predicate SortedByDay(s: seq<Event>) {
    forall i, j :: 0 <= i < j < |s| ==> s[i].dayStart <= s[j].dayStart
  }

  /** Places `e` in the day-ordered sequence `s`, after every event of an earlier day. */
  function InsertByDay(e: Event, s: seq<Event>): (r: seq<Event>)
    requires SortedByDay(s)
    ensures SortedByDay(r)
    ensures multiset(r) == multiset(s) + multiset{e}
    ensures |r| == |s| + 1
    ensures forall k :: 0 <= k < |r| ==> r[k] == e || r[k] in s
    decreases |s|
  {
    if |s| == 0 then [e]
    else if e.dayStart <= s[0].dayStart then [e] + s
    else
      var rest := InsertByDay(e, s[1..]);
      InsertAfterHead(e, s, rest);
      [s[0]] + rest
  }

  /** The step of `InsertByDay` that keeps the head of `s` in front. */
  lemma InsertAfterHead(e: Event, s: seq<Event>, rest: seq<Event>)
    requires |s| > 0 && SortedByDay(s) && s[0].dayStart < e.dayStart
    requires SortedByDay(rest) && |rest| == |s|
    requires multiset(rest) == multiset(s[1..]) + multiset{e}
    requires forall k :: 0 <= k < |rest| ==> rest[k] == e || rest[k] in s[1..]
    ensures SortedByDay([s[0]] + rest)
    ensures multiset([s[0]] + rest) == multiset(s) + multiset{e}
    ensures forall k :: 0 <= k < |rest| + 1 ==> ([s[0]] + rest)[k] == e || ([s[0]] + rest)[k] in s
  {
    var r := [s[0]] + rest;
    assert s == [s[0]] + s[1..];
    assert forall k :: 0 <= k < |rest| ==> s[0].dayStart <= rest[k].dayStart;
    assert forall k :: 1 <= k < |r| ==> r[k] == rest[k - 1];
  }

  /** Orders events by day. Events of the same day may come in any order. */
  function SortByDay(s: seq<Event>): (r: seq<Event>)
    ensures SortedByDay(r)
    ensures multiset(r) == multiset(s)
    ensures |r| == |s|
    ensures forall k :: 0 <= k < |r| ==> r[k] in s
    decreases |s|
  {
    if |s| == 0 then []
    else
      assert s == [s[0]] + s[1..];
      InsertByDay(s[0], SortByDay(s[1..]))
  }

  /** The events the route shows, in the order it shows them. */
  function SelectEvents(events: seq<Event>): (r: seq<Event>)
    ensures |r| == Min(PageSize, |NotDeleted(events)|)
    ensures forall k :: 0 <= k < |r| ==> r[k].status != StatusDeleted
    ensures SortedByDay(r)
    ensures multiset(r) <= multiset(events)
  {
    var kept := NotDeleted(events);
    var sorted := SortByDay(kept);
    var r := sorted[..Min(PageSize, |sorted|)];
    NotDeletedIsSubMultiset(events, kept);
    PrefixOfSorted(kept, sorted, |r|);
    r
  }

  lemma NotDeletedIsSubMultiset(events: seq<Event>, kept: seq<Event>)
    requires forall e :: multiset(kept)[e] == if e.status != StatusDeleted then multiset(events)[e] else 0
    ensures multiset(kept) <= multiset(events)
  {
    forall e
      ensures multiset(kept)[e] <= multiset(events)[e]
    {
    }
  }

  /** A prefix of a day-ordered permutation of non-deleted events is
      day-ordered, non-deleted, and drawn from them. */
  lemma PrefixOfSorted(kept: seq<Event>, sorted: seq<Event>, n: nat)
    requires forall k :: 0 <= k < |kept| ==> kept[k].status != StatusDeleted
    requires SortedByDay(sorted) && multiset(sorted) == multiset(kept)
    requires forall k :: 0 <= k < |sorted| ==> sorted[k] in kept
    requires n <= |sorted|
    ensures SortedByDay(sorted[..n])
    ensures forall k :: 0 <= k < n ==> sorted[..n][k].status != StatusDeleted
    ensures multiset(sorted[..n]) <= multiset(kept)
  {
    PrefixMultiset(sorted, n);
  }

  lemma PrefixMultiset(s: seq<Event>, n: nat)
    requires n <= |s|
    ensures multiset(s[..n]) + multiset(s[n..]) == multiset(s)
  {
    assert s == s[..n] + s[n..];
  }

  /** Whatever a day-ordered sequence holds beyond its first `n` entries is
      on a day no earlier than any of those entries. */
  lemma CutOfSortedIsNotEarlier(sorted: seq<Event>, n: nat, e: Event)
    requires n <= |sorted| && SortedByDay(sorted)
    requires multiset(sorted[..n])[e] < multiset(sorted)[e]
    ensures forall k :: 0 <= k < n ==> sorted[k].dayStart <= e.dayStart
  {
    var dropped := sorted[n..];
    PrefixMultiset(sorted, n);
    assert e in dropped;
    var j :| 0 <= j < |dropped| && dropped[j] == e;
    assert sorted[n + j] == e;
  }

  /** No event left out is earlier than an event kept: the page holds the
      earliest non-deleted events. */
  lemma SelectEventsKeepsEarliest(events: seq<Event>)
    ensures forall e, k ::
      && e in events && e.status != StatusDeleted
      && multiset(SelectEvents(events))[e] < multiset(events)[e]
      && 0 <= k < |SelectEvents(events)|
      ==> SelectEvents(events)[k].dayStart <= e.dayStart
  {
    var sorted := SortByDay(NotDeleted(events));
    var r := SelectEvents(events);
    assert r == sorted[..|r|];
    forall e, k |
      && e in events && e.status != StatusDeleted
      && multiset(r)[e] < multiset(events)[e]
      && 0 <= k < |r|
      ensures r[k].dayStart <= e.dayStart
    {
      assert multiset(sorted)[e] == multiset(events)[e];
      CutOfSortedIsNotEarlier(sorted, |r|, e);
    }
  }

  /** The views of the given events, one per event, in the same order. */
  function BuildViews(es: seq<Event>, viewerId: int, now: int, dayLabel: int -> string): (vs: seq<EventView>)
    ensures |vs| == |es|
    ensures forall k :: 0 <= k < |es| ==> vs[k] == BuildView(es[k], viewerId, now, dayLabel)
  {
    seq(|es|, k requires 0 <= k < |es| => BuildView(es[k], viewerId, now, dayLabel))
  }

  /** What the template receives. */
  datatype EventsPage = EventsPage(events: seq<EventView>, error: Option<string>)

  /** The route. `viewer` is the logged-in user's id, or `None`. */
  function RenderEventsTable(viewer: Option<int>, events: seq<Event>, now: int, dayLabel: int -> string): (page: EventsPage)
    ensures viewer.None? ==> page.events == [] && page.error == Some(LoginRequiredMessage)
    ensures viewer.Some? ==> page.error == None
    ensures |page.events| <= PageSize
    ensures forall k :: 0 <= k < |page.events| ==> page.events[k].status != StatusDeleted
    ensures viewer.Some? ==>
      |page.events| == |SelectEvents(events)|
      && forall k :: 0 <= k < |page.events| ==>
        page.events[k] == BuildView(SelectEvents(events)[k], viewer.value, now, dayLabel)
  {
    match viewer
    case None => EventsPage([], Some(LoginRequiredMessage))
    case Some(id) => EventsPage(BuildViews(SelectEvents(events), id, now, dayLabel), None)
  }
}
