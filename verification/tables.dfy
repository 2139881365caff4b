/**
 * Row shapes of the tables the scheduling application reads and writes, and
 * the two database enumerations. Dates are whole day numbers (`schedule_date`
 * is a `YYYY-MM-DD` date); instants (`created_at`, `read_at`) are integer
 * timestamps. Columns no modelled operation reads are left out of the rows.
 */
module Tables {
  import opened Wrappers
  import opened Seqs

  type Id = string

  /** A calendar date as a day number: consecutive dates are consecutive numbers. */
  type Day = int

  /** A point in time as an integer timestamp. */
  type Instant = int

  /** Enumeration `member_role`: the function a member performs. */
  datatype MemberRole =
    | Vocal | Guitarra | Baixo | Bateria | Teclado | Violao
    | TecnicoSom | TecnicoImagem | Ministro

  /** Enumeration `schedule_type`. */
  datatype ScheduleType = Normal | Especial

  /** The value under which the database stores a role. */
  function RoleName(r: MemberRole): string
  {
    match r
    case Vocal => "vocal"
    case Guitarra => "guitarra"
    case Baixo => "baixo"
    case Bateria => "bateria"
    case Teclado => "teclado"
    case Violao => "violao"
    case TecnicoSom => "tecnico_som"
    case TecnicoImagem => "tecnico_imagem"
    case Ministro => "ministro"
  }

  /**
   * The database's cast of a text value to `member_role`: the role whose stored
   * value is `s`, or nothing when `s` is not one of the nine labels.
   */
  function ParseRole(s: string): (r: Option<MemberRole>)
    ensures r.None? ==> forall role: MemberRole :: RoleName(role) != s
    ensures r.Some? ==> RoleName(r.value) == s
  {
    if s == "vocal" then Some(Vocal)
    else if s == "guitarra" then Some(Guitarra)
    else if s == "baixo" then Some(Baixo)
    else if s == "bateria" then Some(Bateria)
    else if s == "teclado" then Some(Teclado)
    else if s == "violao" then Some(Violao)
    else if s == "tecnico_som" then Some(TecnicoSom)
    else if s == "tecnico_imagem" then Some(TecnicoImagem)
    else if s == "ministro" then Some(Ministro)
    else None
  }

  /** Every role survives being stored and read back. */
  lemma RoleRoundTrip(r: MemberRole)
    ensures ParseRole(RoleName(r)) == Some(r)
  {
  }

  /** Table `members`. */
  datatype Member = Member(
    id: Id,
    name: string,
    role: MemberRole,
    phone: Option<string>,
    email: Option<string>,
    photoUrl: Option<string>,
    active: Option<bool>)

  /** Table `team_members`: a member belongs to a team. */
  datatype TeamMember = TeamMember(id: Id, memberId: Id, teamId: Id, instrument: Option<string>)

  /** Table `schedules`: a dated event of a team (`team_id` may be null). */
  datatype Schedule = Schedule(
    id: Id,
    title: string,
    date: Day,
    scheduleType: Option<ScheduleType>,
    teamId: Option<Id>,
    notes: Option<string>)

  /** Table `schedule_members`: a member assigned to a schedule. */
  datatype ScheduleMember = ScheduleMember(id: Id, memberId: Id, scheduleId: Id, instrument: Option<string>)

  /** Table `member_availability`; `confirmed` null means not yet confirmed. */
  datatype MemberAvailability = MemberAvailability(
    id: Id,
    memberId: Id,
    scheduleId: Id,
    available: Option<bool>,
    confirmed: Option<bool>)

  /** Table `substitution_requests`; `status` is free text ("pending", ...). */
  datatype SubstitutionRequest = SubstitutionRequest(
    id: Id,
    requestingMemberId: Id,
    substituteMemberId: Id,
    scheduleId: Id,
    status: string)

  /** Table `admin_notifications`: a broadcast written by an administrator. */
  datatype AdminNotification = AdminNotification(
    id: Id,
    title: string,
    message: string,
    senderId: Id,
    createdAt: Instant)

  /** Table `notification_recipients`: one broadcast addressed to one member; `read_at` null means unread. */
  datatype NotificationRecipient = NotificationRecipient(
    id: Id,
    memberId: Id,
    notificationId: Id,
    readAt: Option<Instant>)

  /** Table `member_instruments`: an instrument a member plays (its generated `id` is left out). */
  datatype MemberInstrument = MemberInstrument(memberId: Id, instrument: string)

  /** The foreign-key join from a row to the `schedules` row it references. */
  function FindSchedule(schedules: seq<Schedule>, id: Id): (r: Option<Schedule>)
    ensures r.Some? ==> r.value in schedules && r.value.id == id
    ensures r.None? ==> forall s :: s in schedules ==> s.id != id
  {
    FindFirst(schedules, (s: Schedule) => s.id == id)
  }

  /** The foreign-key join from a row to the `members` row it references. */
  function FindMember(members: seq<Member>, id: Id): (r: Option<Member>)
    ensures r.Some? ==> r.value in members && r.value.id == id
    ensures r.None? ==> forall m :: m in members ==> m.id != id
  {
    FindFirst(members, (m: Member) => m.id == id)
  }

  /** The foreign-key join from a recipient row to its broadcast. */
  function FindNotification(notifications: seq<AdminNotification>, id: Id): (r: Option<AdminNotification>)
    ensures r.Some? ==> r.value in notifications && r.value.id == id
    ensures r.None? ==> forall n :: n in notifications ==> n.id != id
  {
    FindFirst(notifications, (n: AdminNotification) => n.id == id)
  }
}
