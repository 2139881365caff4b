/**
 * The four sources of a member's notification feed, as built by
 * `loadNotifications`: unread administrator broadcasts, pending substitution
 * requests addressed to the member, unconfirmed schedules of the member's
 * teams in the next seven days, and confirmed schedules at most three days
 * away. Every query of the application is a filter over an in-memory table, every
 * join a lookup of the referenced row, and the current date is a parameter.
 */
module Feed {
  import opened Wrappers
  import opened Seqs
  import opened Tables

  /** The notification types: "admin_message", "substitution_request", "pending_confirmation", "upcoming_schedule". */
  datatype Kind = AdminMessage | SubstitutionRequested | PendingConfirmation | UpcomingSchedule

  /**
   * One feed entry. `date` is the broadcast's `created_at` for an
   * administrator message and a schedule's date for the other kinds; only
   * entries of the same bucket (administrator or not) are ever compared by date.
   */
  datatype Notification = Notification(
    id: string,
    kind: Kind,
    title: string,
    description: string,
    date: Option<int>,
    scheduleId: Option<Id>,
    recipientId: Option<Id>)

  /** The tables the feed reads. */
  datatype FeedTables = FeedTables(
    recipients: seq<NotificationRecipient>,
    notifications: seq<AdminNotification>,
    requests: seq<SubstitutionRequest>,
    schedules: seq<Schedule>,
    members: seq<Member>,
    teamMembers: seq<TeamMember>,
    availability: seq<MemberAvailability>)

  /** How many days ahead a schedule is looked for. */
  const Horizon := 7

  /** How many days ahead a confirmed schedule is announced. */
  const Urgency := 3

  // ---------------------------------------------------------------------------
  // Source 1: unread administrator broadcasts

  /** The query for the member's recipient rows whose `read_at` is null. */
  function UnreadRecipients(rows: seq<NotificationRecipient>, member: Id): seq<NotificationRecipient>
  {
    Filter(rows, (r: NotificationRecipient) => r.memberId == member && r.readAt.None?)
  }

  function AdminItem(r: NotificationRecipient, n: AdminNotification): Notification
  {
    Notification("admin-" + n.id, AdminMessage, n.title, n.message, Some(n.createdAt), None, Some(r.id))
  }

  /** A recipient row yields its broadcast's item; a row whose broadcast is not found yields nothing. */
  function AdminItemOf(notifications: seq<AdminNotification>): NotificationRecipient -> Option<Notification>
  {
    (r: NotificationRecipient) =>
      match FindNotification(notifications, r.notificationId)
      case Some(n) => Some(AdminItem(r, n))
      case None => None
  }

  /** The administrator entries that recipient rows `rows` yield for the member. */
  function AdminItems(rows: seq<NotificationRecipient>, notifications: seq<AdminNotification>, member: Id): seq<Notification>
  {
    FilterMap(UnreadRecipients(rows, member), AdminItemOf(notifications))
  }

  function AdminSource(db: FeedTables, member: Id): seq<Notification>
  {
    AdminItems(db.recipients, db.notifications, member)
  }

  // ---------------------------------------------------------------------------
  // Source 2: pending substitution requests addressed to the member

  /** The query for requests whose substitute is the member and whose status is "pending". */
  function PendingRequests(requests: seq<SubstitutionRequest>, member: Id): seq<SubstitutionRequest>
  {
    Filter(requests, (q: SubstitutionRequest) => q.substituteMemberId == member && q.status == "pending")
  }

  /** How a template literal shows a field of a join that may have found nothing. */
  function Shown(s: Option<string>): string
  {
    if s.Some? then s.value else "undefined"
  }

  function SubstitutionItem(q: SubstitutionRequest, schedules: seq<Schedule>, members: seq<Member>): Notification
  {
    var schedule := FindSchedule(schedules, q.scheduleId);
    var requester := FindMember(members, q.requestingMemberId);
    var name := if requester.Some? then Some(requester.value.name) else None;
    var title := if schedule.Some? then Some(schedule.value.title) else None;
    Notification(
      "sub-" + q.id,
      SubstitutionRequested,
      "Solicita\U{e7}\U{e3}o de Substitui\U{e7}\U{e3}o",
      Shown(name) + " solicitou que voc\U{ea} o substitua em \"" + Shown(title) + "\"",
      if schedule.Some? then Some(schedule.value.date) else None,
      if schedule.Some? then Some(schedule.value.id) else None,
      None)
  }

  function SubstitutionItemOf(schedules: seq<Schedule>, members: seq<Member>): SubstitutionRequest -> Option<Notification>
  {
    (q: SubstitutionRequest) => Some(SubstitutionItem(q, schedules, members))
  }

  function SubstitutionSource(db: FeedTables, member: Id): seq<Notification>
  {
    FilterMap(PendingRequests(db.requests, member), SubstitutionItemOf(db.schedules, db.members))
  }

  // ---------------------------------------------------------------------------
  // Sources 3 and 4: schedules of the member's teams in the next seven days

  /** The `team_id` of each of the member's `team_members` rows. */
  function MemberTeamIds(teamMembers: seq<TeamMember>, member: Id): seq<Id>
  {
    Map(Filter(teamMembers, (t: TeamMember) => t.memberId == member), (t: TeamMember) => t.teamId)
  }

  /** A schedule of one of `teamIds` dated from `today` to `today + 7`, both included. */
  predicate InWindow(s: Schedule, teamIds: seq<Id>, today: Day)
  {
    s.teamId.Some? && s.teamId.value in teamIds && today <= s.date <= today + Horizon
  }

  /** The query for the schedules in the window. */
  function UpcomingSchedules(schedules: seq<Schedule>, teamIds: seq<Id>, today: Day): seq<Schedule>
  {
    Filter(schedules, (s: Schedule) => InWindow(s, teamIds, today))
  }

  /** The member's availability rows for a schedule. */
  function AvailabilityRows(availability: seq<MemberAvailability>, scheduleId: Id, member: Id): seq<MemberAvailability>
  {
    Filter(availability, (a: MemberAvailability) => a.scheduleId == scheduleId && a.memberId == member)
  }

  /**
   * Whether the member has confirmed the schedule: the single-row lookup finds
   * exactly one row (none, or an ambiguous lookup of several, reads as no row)
   * and that row's `confirmed` is true (null reads as false).
   */
  predicate Confirmed(availability: seq<MemberAvailability>, scheduleId: Id, member: Id)
  {
    var rows := AvailabilityRows(availability, scheduleId, member);
    |rows| == 1 && rows[0].confirmed == Some(true)
  }

  function PendingItem(s: Schedule): Notification
  {
    Notification(
      "confirm-" + s.id, PendingConfirmation, "Confirma\U{e7}\U{e3}o Pendente",
      "Confirme sua presen\U{e7}a para \"" + s.title + "\"", Some(s.date), Some(s.id), None)
  }

  function UpcomingItem(s: Schedule, daysUntil: nat): Notification
  {
    Notification("upcoming-" + s.id, UpcomingSchedule, UpcomingTitle(daysUntil), s.title, Some(s.date), Some(s.id), None)
  }

  /**
   * A schedule yields a pending confirmation when it is not confirmed, an
   * upcoming-schedule reminder when it is confirmed and 0 to 3 days away, and
   * nothing otherwise.
   */
  function ScheduleItemOf(availability: seq<MemberAvailability>, member: Id, today: Day): Schedule -> Option<Notification>
  {
    (s: Schedule) =>
      var daysUntil := s.date - today;
      if !Confirmed(availability, s.id, member) then Some(PendingItem(s))
      else if daysUntil <= Urgency && daysUntil >= 0 then Some(UpcomingItem(s, daysUntil))
      else None
  }

  /** Schedule-derived items; a member in no team gets none. */
  function ScheduleSource(db: FeedTables, member: Id, today: Day): seq<Notification>
  {
    var teamIds := MemberTeamIds(db.teamMembers, member);
    if |teamIds| > 0 then
      FilterMap(UpcomingSchedules(db.schedules, teamIds, today), ScheduleItemOf(db.availability, member, today))
    else []
  }

  /** The feed before sorting: the four sources in the order they are gathered. */
  function Collect(db: FeedTables, member: Id, today: Day): seq<Notification>
  {
    AdminSource(db, member) + SubstitutionSource(db, member) + ScheduleSource(db, member, today)
  }

  // ---------------------------------------------------------------------------
  // Titles of upcoming-schedule reminders

  function DigitChar(d: nat): char
    requires d < 10
  {
    "0123456789"[d]
  }

  predicate IsDigit(c: char)
  {
    '0' <= c <= '9'
  }

  function DigitValue(c: char): nat
    requires IsDigit(c)
  {
    (c as int - '0' as int) as nat
  }

  /** The decimal numeral of `n`, as a template literal prints a number. */
  function NatToString(n: nat): (r: string)
    ensures |r| > 0 && forall c :: c in r ==> IsDigit(c)
    ensures r[0] == '0' <==> n == 0
    ensures |r| > 1 ==> r[0] != '0'
  {
    if n < 10 then [DigitChar(n)] else NatToString(n / 10) + [DigitChar(n % 10)]
  }

  /** The value of a numeral. */
  function ParseNat(s: string): nat
    requires forall c :: c in s ==> IsDigit(c)
  {
    if s == [] then 0
    else
      assert forall c :: c in s[..|s| - 1] ==> c in s;
      10 * ParseNat(s[..|s| - 1]) + DigitValue(s[|s| - 1])
  }

  /** The numeral of a day count reads back as that count. */
  lemma {:induction false} NatToStringRoundTrip(n: nat)
    ensures ParseNat(NatToString(n)) == n
  {
    if n >= 10 {
      NatToStringRoundTrip(n / 10);
      var s := NatToString(n);
      assert s[..|s| - 1] == NatToString(n / 10);
    }
  }

  /**
   * "Escala Hoje!" for a schedule today; otherwise "Escala em N dia", with
   * "dias" when N is more than one, from which N can be read back.
   */
  function UpcomingTitle(daysUntil: nat): (r: string)
    ensures r == "Escala Hoje!" <==> daysUntil == 0
    ensures daysUntil > 0 ==>
      var tail := if daysUntil > 1 then " dias" else " dia";
      && |r| > 10 + |tail|
      && r[..10] == "Escala em "
      && r[10] != '0'
      && r[|r| - |tail|..] == tail
      && (forall c :: c in r[10..|r| - |tail|] ==> IsDigit(c))
      && ParseNat(r[10..|r| - |tail|]) == daysUntil
  {
    if daysUntil == 0 then "Escala Hoje!"
    else
      var digits := NatToString(daysUntil);
      var r := "Escala em " + digits + " dia" + (if daysUntil > 1 then "s" else "");
      var tail := if daysUntil > 1 then " dias" else " dia";
      assert r == "Escala em " + (digits + tail);
      assert r[..10] == "Escala em ";
      assert r[10..|r| - |tail|] == digits;
      assert r[|r| - |tail|..] == tail;
      NatToStringRoundTrip(daysUntil);
      assert r[7] == 'e' && "Escala Hoje!"[7] == 'H';
      r
  }
}

/** What each source of the feed contains, stated against the tables. */
module FeedSources {
  import opened Wrappers
  import opened Seqs
  import opened Tables
  import opened Feed

  /** The member's unread recipient row `r` whose broadcast `n` exists. */
  predicate UnreadBroadcast(db: FeedTables, member: Id, r: NotificationRecipient, n: AdminNotification)
  {
    && r in db.recipients && r.memberId == member && r.readAt.None?
    && n in db.notifications && n.id == r.notificationId
  }

  /**
   * Every administrator item comes from one unread recipient row of the member
   * whose broadcast exists, carrying "admin-" and the broadcast's id, its
   * `created_at` and the recipient row's id; every such row whose broadcast the
   * join finds yields its item; rows whose broadcast is missing are skipped.
   */
  lemma AdminSourceItems(db: FeedTables, member: Id)
    ensures forall x :: x in AdminSource(db, member) ==>
      && x.kind == AdminMessage
      && (exists r, n :: UnreadBroadcast(db, member, r, n)
            && x.id == "admin-" + n.id && x.title == n.title && x.description == n.message
            && x.date == Some(n.createdAt) && x.recipientId == Some(r.id) && x.scheduleId.None?)
    ensures forall r, n ::
      UnreadBroadcast(db, member, r, n) && FindNotification(db.notifications, r.notificationId) == Some(n) ==>
        AdminItem(r, n) in AdminSource(db, member)
    ensures |AdminSource(db, member)| ==
      |Filter(UnreadRecipients(db.recipients, member),
              (r: NotificationRecipient) => FindNotification(db.notifications, r.notificationId).Some?)|
  {
    var rows := UnreadRecipients(db.recipients, member);
    var f := AdminItemOf(db.notifications);
    FilterMembers(db.recipients, (r: NotificationRecipient) => r.memberId == member && r.readAt.None?);
    FilterMapMembers(rows, f);
    forall x | x in AdminSource(db, member)
      ensures x.kind == AdminMessage
      ensures exists r, n :: (UnreadBroadcast(db, member, r, n)
         && x.id == "admin-" + n.id && x.title == n.title && x.description == n.message
         && x.date == Some(n.createdAt) && x.recipientId == Some(r.id) && x.scheduleId.None?)
    {
      var r :| r in rows && f(r) == Some(x);
      var n := FindNotification(db.notifications, r.notificationId).value;
      assert UnreadBroadcast(db, member, r, n);
    }
    forall r, n | UnreadBroadcast(db, member, r, n) && FindNotification(db.notifications, r.notificationId) == Some(n)
      ensures AdminItem(r, n) in AdminSource(db, member)
    {
      assert r in rows && f(r) == Some(AdminItem(r, n));
    }
    FilterMapLength(rows, f, (r: NotificationRecipient) => FindNotification(db.notifications, r.notificationId).Some?);
  }

  /** A "pending" request of which the member is the substitute. */
  predicate PendingFor(db: FeedTables, member: Id, q: SubstitutionRequest)
  {
    q in db.requests && q.substituteMemberId == member && q.status == "pending"
  }

  /**
   * Every substitution item comes from a pending request addressed to the
   * member, with "sub-" and the request's id; its date and schedule id are the
   * joined schedule's, and absent when the join finds no schedule. Every such
   * request yields exactly one item.
   */
  lemma SubstitutionSourceItems(db: FeedTables, member: Id)
    ensures forall x :: x in SubstitutionSource(db, member) ==>
      && x.kind == SubstitutionRequested
      && x.recipientId.None?
      && (exists q :: PendingFor(db, member, q) && x.id == "sub-" + q.id
            && (FindSchedule(db.schedules, q.scheduleId).None? ==> x.date.None? && x.scheduleId.None?)
            && (FindSchedule(db.schedules, q.scheduleId).Some? ==>
                  x.scheduleId == Some(q.scheduleId) && x.date == Some(FindSchedule(db.schedules, q.scheduleId).value.date)))
    ensures forall q :: PendingFor(db, member, q) ==> SubstitutionItem(q, db.schedules, db.members) in SubstitutionSource(db, member)
    ensures |SubstitutionSource(db, member)| == |PendingRequests(db.requests, member)|
  {
    var rows := PendingRequests(db.requests, member);
    var f := SubstitutionItemOf(db.schedules, db.members);
    FilterMembers(db.requests, (q: SubstitutionRequest) => q.substituteMemberId == member && q.status == "pending");
    FilterMapMembers(rows, f);
    forall x | x in SubstitutionSource(db, member)
      ensures x.kind == SubstitutionRequested && x.recipientId.None?
      ensures exists q :: (PendingFor(db, member, q) && x.id == "sub-" + q.id
         && (FindSchedule(db.schedules, q.scheduleId).None? ==> x.date.None? && x.scheduleId.None?)
         && (FindSchedule(db.schedules, q.scheduleId).Some? ==>
               x.scheduleId == Some(q.scheduleId) && x.date == Some(FindSchedule(db.schedules, q.scheduleId).value.date)))
    {
      var q :| q in rows && f(q) == Some(x);
      assert PendingFor(db, member, q);
    }
    forall q | PendingFor(db, member, q)
      ensures SubstitutionItem(q, db.schedules, db.members) in SubstitutionSource(db, member)
    {
      assert q in rows && f(q) == Some(SubstitutionItem(q, db.schedules, db.members));
    }
    FilterMapTotal(rows, f);
  }

  /** The member belongs to `team`: some `team_members` row links them. */
  predicate InTeam(db: FeedTables, member: Id, team: Id)
  {
    exists t :: t in db.teamMembers && t.memberId == member && t.teamId == team
  }

  lemma TeamIdsAreTeams(db: FeedTables, member: Id)
    ensures forall team :: team in MemberTeamIds(db.teamMembers, member) <==> InTeam(db, member, team)
    ensures |MemberTeamIds(db.teamMembers, member)| == 0 <==> forall t :: t in db.teamMembers ==> t.memberId != member
  {
    var mine := Filter(db.teamMembers, (t: TeamMember) => t.memberId == member);
    var ids := MemberTeamIds(db.teamMembers, member);
    FilterMembers(db.teamMembers, (t: TeamMember) => t.memberId == member);
    forall team | InTeam(db, member, team) ensures team in ids {
      var t :| t in db.teamMembers && t.memberId == member && t.teamId == team;
      var i :| 0 <= i < |mine| && mine[i] == t;
      assert ids[i] == team;
    }
    forall team | team in ids ensures InTeam(db, member, team) {
      var i :| 0 <= i < |ids| && ids[i] == team;
      assert mine[i] in mine;
    }
    if exists t :: t in db.teamMembers && t.memberId == member {
      var t :| t in db.teamMembers && t.memberId == member;
      assert t in mine;
    }
    assert |mine| > 0 ==> mine[0] in mine;
  }

  /** A schedule of one of the member's teams, dated from `today` to `today + 7`. */
  predicate UpcomingFor(db: FeedTables, member: Id, today: Day, s: Schedule)
  {
    && s in db.schedules && s.teamId.Some? && InTeam(db, member, s.teamId.value)
    && today <= s.date <= today + Horizon
  }

  /**
   * What one schedule yields, by confirmation and distance: a pending
   * confirmation when unconfirmed; when confirmed, a reminder at 0 to 3 days
   * away and nothing otherwise (further away, or already past).
   */
  lemma ScheduleItemCases(availability: seq<MemberAvailability>, member: Id, today: Day, s: Schedule)
    ensures var x := ScheduleItemOf(availability, member, today)(s);
      && (!Confirmed(availability, s.id, member) ==> x == Some(PendingItem(s)))
      && (Confirmed(availability, s.id, member) && 0 <= s.date - today <= Urgency ==>
            x == Some(UpcomingItem(s, s.date - today)))
      && (Confirmed(availability, s.id, member) && !(0 <= s.date - today <= Urgency) ==> x == None)
  {
  }

  /**
   * Schedule items exist only for a member in at least one team, and only for
   * that member's team schedules in the seven-day window: a pending
   * confirmation exactly when the schedule is not confirmed, an upcoming
   * reminder exactly when it is confirmed and at most three days away; the
   * item is that schedule's `confirm-` or `upcoming-` entry. There is exactly
   * one item per schedule of the window that calls for one.
   */
  lemma ScheduleSourceSound(db: FeedTables, member: Id, today: Day)
    ensures (forall t :: t in db.teamMembers ==> t.memberId != member) ==> ScheduleSource(db, member, today) == []
    ensures forall x :: x in ScheduleSource(db, member, today) ==>
      && x.recipientId.None?
      && (exists s :: UpcomingFor(db, member, today, s) && x.scheduleId == Some(s.id) && x.date == Some(s.date)
            && (x == PendingItem(s) || x == UpcomingItem(s, s.date - today))
            && (x.kind == PendingConfirmation <==> !Confirmed(db.availability, s.id, member))
            && (x.kind == UpcomingSchedule <==>
                  Confirmed(db.availability, s.id, member) && s.date - today <= Urgency)
            && (x.kind == UpcomingSchedule ==> x.title == UpcomingTitle(s.date - today)))
    ensures |ScheduleSource(db, member, today)| ==
      |Filter(UpcomingSchedules(db.schedules, MemberTeamIds(db.teamMembers, member), today),
              (s: Schedule) => ScheduleItemOf(db.availability, member, today)(s).Some?)|
  {
    TeamIdsAreTeams(db, member);
    var teamIds := MemberTeamIds(db.teamMembers, member);
    var rows := UpcomingSchedules(db.schedules, teamIds, today);
    var f := ScheduleItemOf(db.availability, member, today);
    FilterMembers(db.schedules, (s: Schedule) => InWindow(s, teamIds, today));
    FilterMapMembers(rows, f);
    if |teamIds| > 0 {
      forall x | x in ScheduleSource(db, member, today)
        ensures x.recipientId.None?
        ensures exists s :: (UpcomingFor(db, member, today, s) && x.scheduleId == Some(s.id) && x.date == Some(s.date)
            && (x == PendingItem(s) || x == UpcomingItem(s, s.date - today))
            && (x.kind == PendingConfirmation <==> !Confirmed(db.availability, s.id, member))
            && (x.kind == UpcomingSchedule <==>
                  Confirmed(db.availability, s.id, member) && s.date - today <= Urgency)
            && (x.kind == UpcomingSchedule ==> x.title == UpcomingTitle(s.date - today)))
      {
        var s :| s in rows && f(s) == Some(x);
        assert UpcomingFor(db, member, today, s);
        ScheduleItemCases(db.availability, member, today, s);
      }
      FilterMapLength(rows, f, (s: Schedule) => f(s).Some?);
    } else {
      EmptyWithoutMembers(rows);
    }
  }

  /** Every schedule of the window that calls for an item has it in the feed. */
  lemma ScheduleSourceComplete(db: FeedTables, member: Id, today: Day)
    ensures forall s :: UpcomingFor(db, member, today, s) && !Confirmed(db.availability, s.id, member) ==>
      PendingItem(s) in ScheduleSource(db, member, today)
    ensures forall s ::
      UpcomingFor(db, member, today, s) && Confirmed(db.availability, s.id, member) && s.date - today <= Urgency ==>
        UpcomingItem(s, s.date - today) in ScheduleSource(db, member, today)
  {
    TeamIdsAreTeams(db, member);
    var teamIds := MemberTeamIds(db.teamMembers, member);
    var rows := UpcomingSchedules(db.schedules, teamIds, today);
    var f := ScheduleItemOf(db.availability, member, today);
    FilterMembers(db.schedules, (s: Schedule) => InWindow(s, teamIds, today));
    FilterMapMembers(rows, f);
    forall s | UpcomingFor(db, member, today, s)
      ensures f(s).Some? ==> f(s).value in ScheduleSource(db, member, today)
    {
      assert s.teamId.value in teamIds;
      assert s in rows;
    }
    forall s | UpcomingFor(db, member, today, s)
      ensures !Confirmed(db.availability, s.id, member) ==> f(s) == Some(PendingItem(s))
      ensures Confirmed(db.availability, s.id, member) && s.date - today <= Urgency ==>
        f(s) == Some(UpcomingItem(s, s.date - today))
    {
      ScheduleItemCases(db.availability, member, today, s);
    }
  }

  /** A member with nothing unread, nothing to cover and no schedule in the window gets an empty feed. */
  lemma EmptyFeed(db: FeedTables, member: Id, today: Day)
    requires forall r :: r in db.recipients && r.memberId == member ==> r.readAt.Some?
    requires forall q :: q in db.requests && q.substituteMemberId == member ==> q.status != "pending"
    requires forall s :: s in db.schedules ==> !UpcomingFor(db, member, today, s)
    ensures Collect(db, member, today) == []
  {
    AdminSourceItems(db, member);
    SubstitutionSourceItems(db, member);
    ScheduleSourceSound(db, member, today);
    var a, b, c := AdminSource(db, member), SubstitutionSource(db, member), ScheduleSource(db, member, today);
    EmptyWithoutMembers(a);
    EmptyWithoutMembers(b);
    EmptyWithoutMembers(c);
  }
}
