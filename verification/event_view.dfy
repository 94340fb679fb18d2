/** The per-event display record of the events table: who teaches, whether
    the viewer has joined and in what role, whether the session is over,
    whether it is full. Everything the page shows is derived here from the
    event, its participation rows, the viewer's id and the current instant. */
module EventViews {
  import opened Common
  import opened Text
  import opened Periods
  import opened Domain

  const Placeholder: string := "---"
  const NameSeparator: string := ", "

  /** A row is listed under `role` when it has that role and a loaded user. */
  predicate ListedAs(p: Participant, role: string) {
    p.role == role && p.user.Some?
  }

  /** The full names of the rows listed under `role`, in row order. */
  function NamesWithRole(ps: seq<Participant>, role: string): (names: seq<string>)
    ensures |names| <= |ps|
    ensures forall n :: n in names <==>
      exists k :: 0 <= k < |ps| && ListedAs(ps[k], role) && ps[k].user.value.fullName == n
    decreases |ps|
  {
    if |ps| == 0 then []
    else
      var rest := NamesWithRole(ps[1..], role);
      assert forall k :: 1 <= k < |ps| ==> ps[k] == ps[1..][k - 1];
      if ListedAs(ps[0], role) then [ps[0].user.value.fullName] + rest else rest
  }

  /** Listing distributes over concatenation, so the names keep row order. */
  lemma {:induction false} NamesWithRoleAppend(a: seq<Participant>, b: seq<Participant>, role: string)
    ensures NamesWithRole(a + b, role) == NamesWithRole(a, role) + NamesWithRole(b, role)
    decreases |a|
  {
    if |a| > 0 {
      assert (a + b)[1..] == a[1..] + b;
      NamesWithRoleAppend(a[1..], b, role);
    } else {
      assert a + b == b;
    }
  }

  /** One row contributes its name exactly when it is listed under `role`. */
  lemma NamesWithRoleSingle(p: Participant, role: string)
    ensures NamesWithRole([p], role) == if ListedAs(p, role) then [p.user.value.fullName] else []
  {
  }

  /** A row with any other role adds nothing to the list, wherever it stands. */
  lemma OtherRoleNotListed(a: seq<Participant>, p: Participant, b: seq<Participant>, role: string)
    ensures p.role != role ==> NamesWithRole(a + [p] + b, role) == NamesWithRole(a + b, role)
  {
    assert a + [p] + b == a + ([p] + b);
    NamesWithRoleAppend(a, [p] + b, role);
    NamesWithRoleAppend([p], b, role);
    NamesWithRoleAppend(a, b, role);
    NamesWithRoleSingle(p, role);
  }

  /** `", ".join(names) if names else "---"`. */
  function DisplayNames(names: seq<string>): (s: string)
    ensures |names| == 0 ==> s == Placeholder
    ensures |names| == 1 ==> s == names[0]
    ensures |names| > 1 ==> s == DisplayNames(names[..|names| - 1]) + NameSeparator + names[|names| - 1]
    ensures |names| > 0 && (forall k :: 0 <= k < |names| ==> ',' !in names[k]) ==>
      Split(s, NameSeparator) == names
  {
    if |names| == 0 then Placeholder
    else
      var s := Join(NameSeparator, names);
      assert |names| > 1 ==> s == Join(NameSeparator, names[..|names| - 1]) + NameSeparator + names[|names| - 1] by {
        if |names| > 1 {
          assert names == names[..|names| - 1] + [names[|names| - 1]];
          JoinAppend(NameSeparator, names[..|names| - 1], [names[|names| - 1]]);
        }
      }
      assert (forall k :: 0 <= k < |names| ==> ',' !in names[k]) ==> Split(s, NameSeparator) == names by {
        if forall k :: 0 <= k < |names| ==> ',' !in names[k] {
          assert NameSeparator[0] == ',';
          SplitJoin(NameSeparator, names);
        }
      }
      s
  }

  /** The position of the first row whose user id is the viewer's, as
      `next((p for p in participants if p.user_id == viewer), None)`. */
  function FindViewer(ps: seq<Participant>, viewerId: int): (r: Option<nat>)
    ensures r.Some? ==> r.value < |ps| && ps[r.value].userId == viewerId
    ensures r.Some? ==> forall j :: 0 <= j < r.value ==> ps[j].userId != viewerId
    ensures r.None? <==> forall j :: 0 <= j < |ps| ==> ps[j].userId != viewerId
    decreases |ps|
  {
    if |ps| == 0 then None
    else if ps[0].userId == viewerId then Some(0)
    else match FindViewer(ps[1..], viewerId)
      case None => None
      case Some(i) => Some(i + 1)
  }

  /** `now > datetime.combine(day, end time of endPeriod)`. */
  predicate IsEnded(day: int, endPeriod: int, now: int) {
    now > EventEndInstant(day, endPeriod)
  }

  /** `len(participants) >= max_user_joined`. */
  predicate IsFull(count: int, maxUserJoined: int) {
    count >= maxUserJoined
  }

  /** Once over, a session stays over as time moves on. */
  lemma EndedStaysEnded(day: int, endPeriod: int, now: int, later: int)
    requires now <= later
    ensures IsEnded(day, endPeriod, now) ==> IsEnded(day, endPeriod, later)
  {
  }

  /** A session is never over before its day begins and always over once
      the next day has begun, whatever its end period. */
  lemma EndedWithinItsDay(day: int, endPeriod: int, now: int)
    ensures now < day * MicrosPerDay ==> !IsEnded(day, endPeriod, now)
    ensures now >= (day + 1) * MicrosPerDay ==> IsEnded(day, endPeriod, now)
  {
  }

  /** Adding a participant never makes a full event not full. */
  lemma FullStaysFull(ps: seq<Participant>, p: Participant, maxUserJoined: int)
    ensures IsFull(|ps|, maxUserJoined) ==> IsFull(|ps + [p]|, maxUserJoined)
  {
  }

  /** The record handed to the page template for one event. */
  datatype EventView = EventView(
    eventId: int,
    dayStr: string,
    timeStr: string,
    periodDetail: string,
    schoolName: Option<string>,
    name: string,
    studentCount: int,
    instructors: string,
    tas: string,
    isJoined: bool,
    userRole: Option<string>,
    attendanceStatus: Option<string>,
    isEnded: bool,
    isFull: bool,
    isLocked: bool,
    status: string)

  /** "(Tiết start-end)": the raw period numbers. */
  function PeriodDetail(startPeriod: int, endPeriod: int): string {
    "(Tiết " + IntToString(startPeriod) + "-" + IntToString(endPeriod) + ")"
  }

  /** The start label of the first period and the start label of the period
      after the last one: the end shows hour `endPeriod + 7`, whatever the
      end-time table says for `endPeriod`. */
  function TimeRange(startPeriod: int, endPeriod: int): (r: string)
    ensures r == IntToString(startPeriod + 6) + "h00 - " + IntToString(endPeriod + 7) + "h00"
  {
    FormatPeriod(startPeriod) + " - " + FormatPeriod(endPeriod + 1)
  }

  /** The view of event `e` for the viewer `viewerId` at instant `now`.
      `dayLabel` stands for the `%d/%m/%Y` date formatting. */
  function BuildView(e: Event, viewerId: int, now: int, dayLabel: int -> string): (v: EventView)
    // pass-through fields
    ensures v.eventId == e.eventId && v.name == e.name && v.schoolName == e.schoolName
    ensures v.studentCount == e.numberOfStudent && v.isLocked == e.isLocked && v.status == e.status
    ensures v.dayStr == dayLabel(e.dayStart)
    ensures v.timeStr == TimeRange(e.startPeriod, e.endPeriod)
    ensures v.periodDetail == PeriodDetail(e.startPeriod, e.endPeriod)
    // teaching staff
    ensures v.instructors == DisplayNames(NamesWithRole(e.participants, RoleInstructor))
    ensures v.tas == DisplayNames(NamesWithRole(e.participants, RoleTa))
    // the viewer's own participation
    ensures v.isJoined <==> exists k :: 0 <= k < |e.participants| && e.participants[k].userId == viewerId
    ensures v.isJoined ==>
      exists k ::
        && 0 <= k < |e.participants|
        && e.participants[k].userId == viewerId
        && (forall j :: 0 <= j < k ==> e.participants[j].userId != viewerId)
        && v.userRole == Some(e.participants[k].role)
        && v.attendanceStatus == Some(e.participants[k].status)
    ensures !v.isJoined ==> v.userRole == None && v.attendanceStatus == None
    // time and capacity
    ensures v.isEnded <==> now > Combine(e.dayStart, PeriodEndTime(e.endPeriod))
    ensures v.isFull <==> |e.participants| >= e.maxUserJoined
  {
    var ps := e.participants;
    var found := FindViewer(ps, viewerId);
    EventView(
      eventId := e.eventId,
      dayStr := dayLabel(e.dayStart),
      timeStr := TimeRange(e.startPeriod, e.endPeriod),
      periodDetail := PeriodDetail(e.startPeriod, e.endPeriod),
      schoolName := e.schoolName,
      name := e.name,
      studentCount := e.numberOfStudent,
      instructors := DisplayNames(NamesWithRole(ps, RoleInstructor)),
      tas := DisplayNames(NamesWithRole(ps, RoleTa)),
      isJoined := found.Some?,
      userRole := if found.Some? then Some(ps[found.value].role) else None,
      attendanceStatus := if found.Some? then Some(ps[found.value].status) else None,
      isEnded := IsEnded(e.dayStart, e.endPeriod, now),
      isFull := IsFull(|ps|, e.maxUserJoined),
      isLocked := e.isLocked,
      status := e.status)
  }

  /** Two rows for the same viewer: the first one decides the role shown. */
  lemma FirstRowDecidesRole(e: Event, viewerId: int, now: int, dayLabel: int -> string, k: nat)
    requires k < |e.participants| && e.participants[k].userId == viewerId
    requires forall j :: 0 <= j < k ==> e.participants[j].userId != viewerId
    ensures BuildView(e, viewerId, now, dayLabel).userRole == Some(e.participants[k].role)
    ensures BuildView(e, viewerId, now, dayLabel).attendanceStatus == Some(e.participants[k].status)
  {
  }
}
