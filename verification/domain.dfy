/** The records the events page reads: an event with its participation
    rows, each row carrying the linked user when one is loaded. */
module Domain {
  import opened Common

  datatype User = User(userId: int, fullName: string)

  /** One user's link to one event. `user` is absent when the row has no
      loaded user; `userId` is the row's own foreign key. */
  datatype Participant = Participant(
    userId: int,
    role: string,
    status: string,
    user: Option<User>)

  /** A scheduled session. `dayStart` is a day number; the periods are
      class-period numbers; `participants` are the event's rows in load order. */
  datatype Event = Event(
    eventId: int,
    name: string,
    schoolName: Option<string>,
    dayStart: int,
    startPeriod: int,
    endPeriod: int,
    maxUserJoined: int,
    numberOfStudent: int,
    status: string,
    isLocked: bool,
    participants: seq<Participant>)

  const RoleInstructor: string := "instructor"
  const RoleTa: string := "ta"
  const StatusDeleted: string := "deleted"
}
