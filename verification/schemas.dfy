/** The input checks of the request schemas: the user role, the Gmail-only
    registration address, the phone pattern `^0\d{9}$`, the minimum
    password length, and the time window and head count of an event. Each
    validator returns the value it was given when it accepts it. */
module Schemas {
  import opened Common
  import opened Text

  /** The reasons a field or a whole record is refused. */
  datatype FieldError =
    | InvalidRole
    | NotGmail
    | PhonePattern
    | PasswordTooShort
    | FromTimeOutOfRange
    | ToTimeOutOfRange
    | NegativeStudentCount
    | TimeOrder

  // ---- users ----------------------------------------------------------

  const RoleUser: string := "user"
  const RoleAdmin: string := "admin"
  const DefaultRole: string := RoleUser
  const GmailSuffix: string := "@gmail.com"
  const PasswordMinLength: nat := 6

  /** `role_must_be_valid`. */
  function ValidateRole(v: string): (r: Result<string, FieldError>)
    ensures r.Ok? <==> v == "user" || v == "admin"
    ensures r.Ok? ==> r.value == v
    ensures r.Err? ==> r.error == InvalidRole
  {
    if v in [RoleUser, RoleAdmin] then Ok(v) else Err(InvalidRole)
  }

  /** `validate_gmail`: the address must end with "@gmail.com". */
  function ValidateGmail(v: string): (r: Result<string, FieldError>)
    ensures r.Ok? <==> exists local :: v == local + "@gmail.com"
    ensures r.Ok? ==> r.value == v
    ensures r.Err? ==> r.error == NotGmail
  {
    EndsWithIffConcat(v, GmailSuffix);
    if EndsWith(v, GmailSuffix) then Ok(v) else Err(NotGmail)
  }

  /** The password field's `min_length=6`, counted in characters. */
  function ValidatePassword(pw: string): (r: Result<string, FieldError>)
    ensures r.Ok? <==> |pw| >= 6
    ensures r.Ok? ==> r.value == pw
    ensures r.Err? ==> r.error == PasswordTooShort
  {
    if |pw| < PasswordMinLength then Err(PasswordTooShort) else Ok(pw)
  }

  /** `^0\d{9}$`: a '0' followed by exactly nine digits. */
  predicate PhoneMatches(s: string) {
    |s| == 10 && s[0] == '0' && AllDigits(s)
  }

  lemma PhoneMatchesIffZeroThenNineDigits(s: string)
    ensures PhoneMatches(s) <==> exists d :: |d| == 9 && AllDigits(d) && s == "0" + d
  {
    if PhoneMatches(s) {
      assert s == "0" + s[1..];
      assert AllDigits(s[1..]);
    }
    if exists d :: |d| == 9 && AllDigits(d) && s == "0" + d {
      var d :| |d| == 9 && AllDigits(d) && s == "0" + d;
      assert forall i :: 1 <= i < |s| ==> s[i] == d[i - 1];
    }
  }

  /** An executable matcher for the phone pattern, scanning left to right one
      character at a time; shown equal to `PhoneMatches`, the definition
      `ValidatePhone` uses, and to the "'0' then nine digits" reading. */
  method MatchPhone(s: string) returns (ok: bool)
    ensures ok <==> PhoneMatches(s)
    ensures ok <==> exists d :: |d| == 9 && AllDigits(d) && s == "0" + d
  {
    PhoneMatchesIffZeroThenNineDigits(s);
    if |s| != 10 || s[0] != '0' {
      return false;
    }
    var i := 1;
    while i < |s|
      invariant 1 <= i <= |s|
      invariant forall j :: 0 <= j < i ==> IsDigit(s[j])
    {
      if !IsDigit(s[i]) {
        return false;
      }
      i := i + 1;
    }
    return true;
  }

  /** The optional phone field: absent is fine, present must match. */
  function ValidatePhone(phone: Option<string>): (r: Result<Option<string>, FieldError>)
    ensures r.Ok? <==> phone.None? || PhoneMatches(phone.value)
    ensures r.Ok? <==> phone.None? || exists d :: |d| == 9 && AllDigits(d) && phone.value == "0" + d
    ensures r.Ok? ==> r.value == phone
    ensures r.Err? ==> r.error == PhonePattern
  {
    match phone
    case None => Ok(None)
    case Some(s) =>
      PhoneMatchesIffZeroThenNineDigits(s);
      if PhoneMatches(s) then Ok(phone) else Err(PhonePattern)
  }

  /** A `UserCreate` body. The address is taken as already well formed. */
  datatype UserCreateInput = UserCreateInput(
    fullName: Option<string>,
    email: string,
    phone: Option<string>,
    status: bool,
    role: string,
    nameBank: Option<string>,
    bankNumber: Option<string>,
    password: string)

  /** The errors of a record, one per failing field, in field order. */
  function Failures(checks: seq<Outcome>): (errs: seq<FieldError>)
    ensures |errs| <= |checks|
    ensures forall e :: e in errs <==> Failed(e) in checks
    ensures |errs| == 0 <==> forall k :: 0 <= k < |checks| ==> checks[k] == Passed
    decreases |checks|
  {
    if |checks| == 0 then []
    else
      var rest := Failures(checks[1..]);
      assert forall k :: 1 <= k < |checks| ==> checks[k] == checks[1..][k - 1];
      match checks[0]
      case Passed => rest
      case Failed(e) => [e] + rest
  }

  datatype Outcome = Passed | Failed(error: FieldError)

  function Check<T>(r: Result<T, FieldError>): Outcome {
    match r
    case Ok(_) => Passed
    case Err(e) => Failed(e)
  }

  /** `UserCreate`: phone, role and password are checked, every failure reported. */
  function ValidateUserCreate(u: UserCreateInput): (r: Result<UserCreateInput, seq<FieldError>>)
    ensures r.Ok? <==> ValidatePhone(u.phone).Ok? && (u.role == "user" || u.role == "admin") && |u.password| >= 6
    ensures r.Ok? ==> r.value == u
    ensures r.Err? ==> |r.error| > 0
    ensures r.Err? ==> (PhonePattern in r.error <==> ValidatePhone(u.phone).Err?)
    ensures r.Err? ==> (InvalidRole in r.error <==> !(u.role == "user" || u.role == "admin"))
    ensures r.Err? ==> (PasswordTooShort in r.error <==> |u.password| < 6)
    ensures r.Err? ==> forall x :: x in r.error ==> x == PhonePattern || x == InvalidRole || x == PasswordTooShort
  {
    var errs := Failures([Check(ValidatePhone(u.phone)), Check(ValidateRole(u.role)), Check(ValidatePassword(u.password))]);
    if |errs| == 0 then Ok(u) else Err(errs)
  }

  /** A user body as sent, with the defaulted fields possibly left out. */
  datatype UserCreateForm = UserCreateForm(
    fullName: Option<string>,
    email: string,
    phone: Option<string>,
    status: Option<bool>,
    role: Option<string>,
    nameBank: Option<string>,
    bankNumber: Option<string>,
    password: string)

  const DefaultUserStatus: bool := true

  /** Fills an omitted role with "user" and an omitted status with true. */
  function WithUserDefaults(f: UserCreateForm): (u: UserCreateInput)
    ensures f.role.None? ==> u.role == "user"
    ensures f.status.None? ==> u.status
    ensures f.role.Some? ==> u.role == f.role.value
    ensures f.status.Some? ==> u.status == f.status.value
    ensures u.fullName == f.fullName && u.email == f.email && u.phone == f.phone
    ensures u.nameBank == f.nameBank && u.bankNumber == f.bankNumber && u.password == f.password
  {
    UserCreateInput(f.fullName, f.email, f.phone, f.status.GetOr(DefaultUserStatus),
      f.role.GetOr(DefaultRole), f.nameBank, f.bankNumber, f.password)
  }

  /** With the role left out, the default "user" never causes a refusal:
      only the phone and the password decide. */
  lemma DefaultRoleAccepted(f: UserCreateForm)
    requires f.role.None?
    ensures ValidateUserCreate(WithUserDefaults(f)).Ok? <==> ValidatePhone(f.phone).Ok? && |f.password| >= 6
    ensures ValidateUserCreate(WithUserDefaults(f)).Err? ==> InvalidRole !in ValidateUserCreate(WithUserDefaults(f)).error
  {
  }

  /** A `UserRegister` body. */
  datatype UserRegisterInput = UserRegisterInput(email: string, password: string)

  /** `UserRegister`: a Gmail address and a long enough password. */
  function ValidateUserRegister(u: UserRegisterInput): (r: Result<UserRegisterInput, seq<FieldError>>)
    ensures r.Ok? <==> (exists local :: u.email == local + "@gmail.com") && |u.password| >= 6
    ensures r.Ok? ==> r.value == u
    ensures r.Err? ==> |r.error| > 0
    ensures r.Err? ==> (NotGmail in r.error <==> !exists local :: u.email == local + "@gmail.com")
    ensures r.Err? ==> (PasswordTooShort in r.error <==> |u.password| < 6)
    ensures r.Err? ==> forall x :: x in r.error ==> x == NotGmail || x == PasswordTooShort
  {
    var errs := Failures([Check(ValidateGmail(u.email)), Check(ValidatePassword(u.password))]);
    if |errs| == 0 then Ok(u) else Err(errs)
  }

  // ---- events ---------------------------------------------------------

  const TimeMin: int := 0
  const TimeMax: int := 2400
  const DefaultStudentCount: int := 0
  const DefaultEventStatus: string := "upcoming"

  /** An `EventCreate` body; `dayStart` is a day number. */
  datatype EventInput = EventInput(
    name: string,
    dayStart: int,
    fromTime: int,
    toTime: int,
    numberOfStudent: int,
    status: string,
    schoolName: Option<string>)

  function CheckRange(v: int, lo: int, hi: int, e: FieldError): Outcome {
    if lo <= v <= hi then Passed else Failed(e)
  }

  /** `EventCreate`: the field bounds first, every failure reported; only
      when all fields pass does the end time have to follow the start time. */
  function ValidateEvent(e: EventInput): (r: Result<EventInput, seq<FieldError>>)
    ensures r.Ok? <==> 0 <= e.fromTime <= 2400 && 0 <= e.toTime <= 2400 && e.fromTime < e.toTime && e.numberOfStudent >= 0
    ensures r.Ok? ==> r.value == e
    ensures r.Err? ==> |r.error| > 0
    ensures r.Err? ==> (FromTimeOutOfRange in r.error <==> !(0 <= e.fromTime <= 2400))
    ensures r.Err? ==> (ToTimeOutOfRange in r.error <==> !(0 <= e.toTime <= 2400))
    ensures r.Err? ==> (NegativeStudentCount in r.error <==> e.numberOfStudent < 0)
    ensures r.Err? && TimeOrder in r.error ==> r.error == [TimeOrder]
    ensures r.Err? ==> (TimeOrder in r.error <==>
      0 <= e.fromTime <= 2400 && 0 <= e.toTime <= 2400 && e.numberOfStudent >= 0 && e.toTime <= e.fromTime)
    ensures r.Err? ==> forall x :: x in r.error ==>
      x == FromTimeOutOfRange || x == ToTimeOutOfRange || x == NegativeStudentCount || x == TimeOrder
  {
    var fieldErrs := Failures([
      CheckRange(e.fromTime, TimeMin, TimeMax, FromTimeOutOfRange),
      CheckRange(e.toTime, TimeMin, TimeMax, ToTimeOutOfRange),
      if e.numberOfStudent >= 0 then Passed else Failed(NegativeStudentCount)]);
    if |fieldErrs| > 0 then Err(fieldErrs)
    else if e.toTime <= e.fromTime then Err([TimeOrder])
    else Ok(e)
  }

  /** An event body as sent, with the defaulted fields possibly left out. */
  datatype EventForm = EventForm(
    name: string,
    dayStart: int,
    fromTime: int,
    toTime: int,
    numberOfStudent: Option<int>,
    status: Option<string>,
    schoolName: Option<string>)

  function WithDefaults(f: EventForm): (e: EventInput)
    ensures f.numberOfStudent.None? ==> e.numberOfStudent == 0
    ensures f.status.None? ==> e.status == "upcoming"
    ensures f.numberOfStudent.Some? ==> e.numberOfStudent == f.numberOfStudent.value
    ensures f.status.Some? ==> e.status == f.status.value
    ensures e.name == f.name && e.dayStart == f.dayStart && e.fromTime == f.fromTime
    ensures e.toTime == f.toTime && e.schoolName == f.schoolName
  {
    EventInput(f.name, f.dayStart, f.fromTime, f.toTime,
      f.numberOfStudent.GetOr(DefaultStudentCount), f.status.GetOr(DefaultEventStatus), f.schoolName)
  }

  /** The default head count never causes a refusal: only the times decide. */
  lemma DefaultStudentCountAccepted(f: EventForm)
    requires f.numberOfStudent.None?
    ensures ValidateEvent(WithDefaults(f)).Ok? <==> 0 <= f.fromTime < f.toTime <= 2400
  {
  }

  /** Validating an accepted value again accepts it unchanged. */
  lemma ValidationIdempotent(role: string, email: string, phone: Option<string>, pw: string, e: EventInput,
                             u: UserCreateInput, g: UserRegisterInput)
    ensures ValidateRole(role).Ok? ==> ValidateRole(ValidateRole(role).value) == ValidateRole(role)
    ensures ValidateGmail(email).Ok? ==> ValidateGmail(ValidateGmail(email).value) == ValidateGmail(email)
    ensures ValidatePhone(phone).Ok? ==> ValidatePhone(ValidatePhone(phone).value) == ValidatePhone(phone)
    ensures ValidatePassword(pw).Ok? ==> ValidatePassword(ValidatePassword(pw).value) == ValidatePassword(pw)
    ensures ValidateEvent(e).Ok? ==> ValidateEvent(ValidateEvent(e).value) == ValidateEvent(e)
    ensures ValidateUserCreate(u).Ok? ==> ValidateUserCreate(ValidateUserCreate(u).value) == ValidateUserCreate(u)
    ensures ValidateUserRegister(g).Ok? ==> ValidateUserRegister(ValidateUserRegister(g).value) == ValidateUserRegister(g)
  {
  }
}
