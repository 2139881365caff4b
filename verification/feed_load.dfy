/**
 * Loading a member's notification feed, and marking an administrator message
 * read when its pop-up is closed.
 */
module FeedLoad {
  import opened Wrappers
  import opened Seqs
  import opened Tables
  import opened Feed
  import opened FeedSources
  import opened FeedOrder

  /** One step of the loop over unread recipient rows: `after` extends `before` by the item of `unread[i]`. */
  lemma AdminStep(list: seq<Notification>, before: seq<Notification>, after: seq<Notification>,
                  unread: seq<NotificationRecipient>, i: nat, notifications: seq<AdminNotification>)
    requires i < |unread|
    requires before == list + FilterMap(unread[..i], AdminItemOf(notifications))
    requires var n := FindNotification(notifications, unread[i].notificationId);
      after == if n.Some? then before + [AdminItem(unread[i], n.value)] else before
    ensures after == list + FilterMap(unread[..i + 1], AdminItemOf(notifications))
  {
    var f := AdminItemOf(notifications);
    var item := if f(unread[i]).Some? then [f(unread[i]).value] else [];
    FilterMapStep(unread, i, f);
    assert list + FilterMap(unread[..i + 1], f) == (list + FilterMap(unread[..i], f)) + item;
    assert after == before + item;
  }

  /** One step of the loop over pending substitution requests: `after` extends `before` by the item of `pending[i]`. */
  lemma SubstitutionStep(list: seq<Notification>, before: seq<Notification>, after: seq<Notification>,
                         pending: seq<SubstitutionRequest>, i: nat, schedules: seq<Schedule>, members: seq<Member>)
    requires i < |pending|
    requires before == list + FilterMap(pending[..i], SubstitutionItemOf(schedules, members))
    requires after == before + [SubstitutionItem(pending[i], schedules, members)]
    ensures after == list + FilterMap(pending[..i + 1], SubstitutionItemOf(schedules, members))
  {
    var f := SubstitutionItemOf(schedules, members);
    FilterMapStep(pending, i, f);
    assert list + FilterMap(pending[..i + 1], f) == (list + FilterMap(pending[..i], f)) + [SubstitutionItem(pending[i], schedules, members)];
  }

  /** One step of the loop over the schedules of the window: `after` extends `before` by the item of `upcoming[i]`. */
  lemma ScheduleStep(list: seq<Notification>, before: seq<Notification>, after: seq<Notification>,
                     upcoming: seq<Schedule>, i: nat, availability: seq<MemberAvailability>, member: Id, today: Day)
    requires i < |upcoming|
    requires before == list + FilterMap(upcoming[..i], ScheduleItemOf(availability, member, today))
    requires var s := upcoming[i];
      after == if !Confirmed(availability, s.id, member) then before + [PendingItem(s)]
        else if s.date - today <= Urgency && s.date - today >= 0 then before + [UpcomingItem(s, s.date - today)]
        else before
    ensures after == list + FilterMap(upcoming[..i + 1], ScheduleItemOf(availability, member, today))
  {
    var f := ScheduleItemOf(availability, member, today);
    var done := FilterMap(upcoming[..i], f);
    var item := if f(upcoming[i]).Some? then [f(upcoming[i]).value] else [];
    FilterMapStep(upcoming, i, f);
    assert list + FilterMap(upcoming[..i + 1], f) == (list + done) + item;
    ScheduleItemCases(availability, member, today, upcoming[i]);
    assert after == before + item;
  }

  /** Appends an item for each unread broadcast of the member whose broadcast row is found. */
  method PushAdminMessages(list: seq<Notification>, db: FeedTables, member: Id) returns (out: seq<Notification>)
    ensures out == list + AdminSource(db, member)
  {
    out := list;
    var unread := UnreadRecipients(db.recipients, member);
    var i := 0;
    while i < |unread|
      invariant 0 <= i <= |unread|
      invariant out == list + FilterMap(unread[..i], AdminItemOf(db.notifications))
    {
      var r := unread[i];
      var n := FindNotification(db.notifications, r.notificationId);
      ghost var before := out;
      if n.Some? {
        out := out + [AdminItem(r, n.value)];
      }
      AdminStep(list, before, out, unread, i, db.notifications);
      assert out == list + FilterMap(unread[..i + 1], AdminItemOf(db.notifications));
      i := i + 1;
    }
    assert unread[..|unread|] == unread;
  }

  /** Appends an item for each pending request in which the member is the substitute. */
  method PushSubstitutionRequests(list: seq<Notification>, db: FeedTables, member: Id) returns (out: seq<Notification>)
    ensures out == list + SubstitutionSource(db, member)
  {
    out := list;
    var pending := PendingRequests(db.requests, member);
    var i := 0;
    while i < |pending|
      invariant 0 <= i <= |pending|
      invariant out == list + FilterMap(pending[..i], SubstitutionItemOf(db.schedules, db.members))
    {
      ghost var before := out;
      out := out + [SubstitutionItem(pending[i], db.schedules, db.members)];
      SubstitutionStep(list, before, out, pending, i, db.schedules, db.members);
      assert out == list + FilterMap(pending[..i + 1], SubstitutionItemOf(db.schedules, db.members));
      i := i + 1;
    }
    assert pending[..|pending|] == pending;
  }

  /**
   * Appends, for each schedule of `upcoming` in turn, a pending confirmation
   * when the member has not confirmed it, an upcoming-schedule reminder when
   * it is confirmed and at most three days away, and nothing otherwise.
   */
  method PushScheduleRows(list: seq<Notification>, upcoming: seq<Schedule>, availability: seq<MemberAvailability>,
                          member: Id, today: Day) returns (out: seq<Notification>)
    ensures out == list + FilterMap(upcoming, ScheduleItemOf(availability, member, today))
  {
    ghost var itemOf := ScheduleItemOf(availability, member, today);
    out := list;
    var i := 0;
    while i < |upcoming|
      invariant 0 <= i <= |upcoming|
      invariant out == list + FilterMap(upcoming[..i], itemOf)
    {
      var s := upcoming[i];
      var confirmed := Confirmed(availability, s.id, member);
      var daysUntil := s.date - today;
      ghost var before := out;
      if !confirmed {
        out := out + [PendingItem(s)];
      } else if daysUntil <= Urgency && daysUntil >= 0 {
        out := out + [UpcomingItem(s, daysUntil)];
      }
      ScheduleStep(list, before, out, upcoming, i, availability, member, today);
      assert out == list + FilterMap(upcoming[..i + 1], itemOf);
      i := i + 1;
    }
    assert upcoming[..|upcoming|] == upcoming;
  }

  /** Appends the items of the member's team schedules in the next seven days; none for a member in no team. */
  method PushScheduleItems(list: seq<Notification>, db: FeedTables, member: Id, today: Day) returns (out: seq<Notification>)
    ensures out == list + ScheduleSource(db, member, today)
  {
    out := list;
    var teamIds := MemberTeamIds(db.teamMembers, member);
    if |teamIds| > 0 {
      var upcoming := UpcomingSchedules(db.schedules, teamIds, today);
      out := PushScheduleRows(out, upcoming, db.availability, member, today);
    }
  }

  /**
   * Builds the feed of the signed-in member (`member` is the member id of the
   * user's profile, absent when there is no user or no linked member, in which
   * case no feed is produced): the four sources gathered in order, then sorted.
   */
  method LoadNotifications(db: FeedTables, member: Option<Id>, today: Day) returns (feed: Option<seq<Notification>>)
    ensures feed.Some? <==> member.Some?
    ensures member.Some? ==> multiset(feed.value) == multiset(Collect(db, member.value, today))
    ensures member.Some? ==> Sorted(feed.value)
    ensures member.Some? ==> forall e :: Filter(feed.value, RankOf(e)) == Filter(Collect(db, member.value, today), RankOf(e))
  {
    if member.None? {
      return None;
    }
    var m := member.value;
    var list: seq<Notification> := [];
    list := PushAdminMessages(list, db, m);
    assert list == AdminSource(db, m);
    list := PushSubstitutionRequests(list, db, m);
    list := PushScheduleItems(list, db, m, today);
    var sorted := SortFeed(list);
    return Some(sorted);
  }

  // ---------------------------------------------------------------------------
  // Marking an administrator message read

  /** Whether a feed entry stays once recipient row `recipientId` is read. */
  function KeepUnlessRead(recipientId: Id): Notification -> bool
  {
    (n: Notification) => !(n.kind == AdminMessage && n.recipientId == Some(recipientId))
  }

  /** The in-memory feed after the pop-up of recipient row `recipientId` is closed. */
  function RemoveRead(feed: seq<Notification>, recipientId: Id): (r: seq<Notification>)
    ensures forall x :: x in r <==> x in feed && !(x.kind == AdminMessage && x.recipientId == Some(recipientId))
  {
    FilterMembers(feed, KeepUnlessRead(recipientId));
    Filter(feed, KeepUnlessRead(recipientId))
  }

  /**
   * Closing the pop-up removes exactly the matching administrator entries and
   * keeps every other entry where it was: it works entry by entry, left to
   * right (this lemma and the next).
   */
  lemma RemoveReadConcat(a: seq<Notification>, b: seq<Notification>, recipientId: Id)
    ensures RemoveRead(a + b, recipientId) == RemoveRead(a, recipientId) + RemoveRead(b, recipientId)
  {
    FilterConcat(a, b, KeepUnlessRead(recipientId));
  }

  lemma RemoveReadSingleton(x: Notification, recipientId: Id)
    ensures RemoveRead([x], recipientId) ==
      if x.kind == AdminMessage && x.recipientId == Some(recipientId) then [] else [x]
  {
    FilterSingleton(x, KeepUnlessRead(recipientId));
  }

  /** Closing the same pop-up twice leaves the feed as closing it once. */
  lemma RemoveReadIdempotent(feed: seq<Notification>, recipientId: Id)
    ensures RemoveRead(RemoveRead(feed, recipientId), recipientId) == RemoveRead(feed, recipientId)
  {
    FilterIdempotent(feed, KeepUnlessRead(recipientId));
  }

  /** Removing entries from a sorted feed leaves it sorted. */
  lemma {:induction false} RemoveReadSorted(feed: seq<Notification>, recipientId: Id)
    requires Sorted(feed)
    ensures Sorted(RemoveRead(feed, recipientId))
    decreases |feed|
  {
    if feed != [] {
      var n := |feed| - 1;
      var init := feed[..n];
      assert feed == init + [feed[n]];
      RemoveReadSorted(init, recipientId);
      RemoveReadConcat(init, [feed[n]], recipientId);
      RemoveReadSingleton(feed[n], recipientId);
      var kept := RemoveRead(init, recipientId);
      SortedLast(init, feed[n]);
      assert forall y :: y in kept ==> y in init;
      if KeepUnlessRead(recipientId)(feed[n]) {
        AppendSorted(kept, feed[n]);
      }
    }
  }

  /** The update of `notification_recipients` that stamps row `recipientId` with `read_at = now`. */
  function MarkRecipientRead(rows: seq<NotificationRecipient>, recipientId: Id, now: Instant): (r: seq<NotificationRecipient>)
    ensures |r| == |rows|
    ensures forall i :: 0 <= i < |rows| ==>
      if rows[i].id == recipientId then r[i] == rows[i].(readAt := Some(now)) else r[i] == rows[i]
  {
    Map(rows, (row: NotificationRecipient) => if row.id == recipientId then row.(readAt := Some(now)) else row)
  }

  lemma AdminItemsConcat(a: seq<NotificationRecipient>, b: seq<NotificationRecipient>,
                         notifications: seq<AdminNotification>, member: Id)
    ensures AdminItems(a + b, notifications, member) == AdminItems(a, notifications, member) + AdminItems(b, notifications, member)
  {
    FilterConcat(a, b, (r: NotificationRecipient) => r.memberId == member && r.readAt.None?);
    FilterMapConcat(UnreadRecipients(a, member), UnreadRecipients(b, member), AdminItemOf(notifications));
  }

  lemma MarkRecipientReadConcat(a: seq<NotificationRecipient>, b: seq<NotificationRecipient>, recipientId: Id, now: Instant)
    ensures MarkRecipientRead(a + b, recipientId, now) == MarkRecipientRead(a, recipientId, now) + MarkRecipientRead(b, recipientId, now)
  {
  }

  /** For a single recipient row, marking it read removes exactly its entry. */
  lemma AdminItemsMarkOne(row: NotificationRecipient, notifications: seq<AdminNotification>, member: Id,
                          recipientId: Id, now: Instant)
    ensures AdminItems(MarkRecipientRead([row], recipientId, now), notifications, member)
         == RemoveRead(AdminItems([row], notifications, member), recipientId)
  {
    var unread := (r: NotificationRecipient) => r.memberId == member && r.readAt.None?;
    var f := AdminItemOf(notifications);
    var marked := if row.id == recipientId then row.(readAt := Some(now)) else row;
    assert MarkRecipientRead([row], recipientId, now) == [marked];
    FilterSingleton(marked, unread);
    FilterSingleton(row, unread);
    if !unread(row) {
      assert UnreadRecipients([marked], member) == [] == UnreadRecipients([row], member);
    } else {
      FilterMapSingleton(row, f);
      var items := FilterMap([row], f);
      assert AdminItems([row], notifications, member) == items;
      if items != [] {
        assert items == [items[0]] && items[0].recipientId == Some(row.id) && items[0].kind == AdminMessage;
        RemoveReadSingleton(items[0], recipientId);
      }
      if row.id == recipientId {
        assert UnreadRecipients([marked], member) == [];
      } else {
        assert marked == row;
      }
    }
  }

  /** The administrator part of the feed, reloaded after the update, is the old one with the entry removed. */
  lemma {:induction false} AdminSourceAfterMark(
    rows: seq<NotificationRecipient>, notifications: seq<AdminNotification>, member: Id, recipientId: Id, now: Instant)
    ensures AdminItems(MarkRecipientRead(rows, recipientId, now), notifications, member)
         == RemoveRead(AdminItems(rows, notifications, member), recipientId)
    decreases |rows|
  {
    if rows != [] {
      var n := |rows| - 1;
      var init, last := rows[..n], rows[n];
      assert rows == init + [last];
      AdminSourceAfterMark(init, notifications, member, recipientId, now);
      AdminItemsMarkOne(last, notifications, member, recipientId, now);
      MarkRecipientReadConcat(init, [last], recipientId, now);
      AdminItemsConcat(MarkRecipientRead(init, recipientId, now), MarkRecipientRead([last], recipientId, now), notifications, member);
      AdminItemsConcat(init, [last], notifications, member);
      RemoveReadConcat(AdminItems(init, notifications, member), AdminItems([last], notifications, member), recipientId);
    }
  }

  /** Entries that are not addressed to a recipient row survive any mark-read. */
  lemma RemoveReadKeepsOthers(feed: seq<Notification>, recipientId: Id)
    requires forall x :: x in feed ==> x.recipientId.None?
    ensures RemoveRead(feed, recipientId) == feed
  {
    FilterKeepsAll(feed, KeepUnlessRead(recipientId));
  }

  /** Substitution and schedule entries carry no recipient row, so closing a pop-up keeps them all. */
  lemma OtherSourcesKept(db: FeedTables, member: Id, today: Day, recipientId: Id)
    ensures RemoveRead(SubstitutionSource(db, member), recipientId) == SubstitutionSource(db, member)
    ensures RemoveRead(ScheduleSource(db, member, today), recipientId) == ScheduleSource(db, member, today)
  {
    SubstitutionSourceItems(db, member);
    ScheduleSourceSound(db, member, today);
    RemoveReadKeepsOthers(SubstitutionSource(db, member), recipientId);
    RemoveReadKeepsOthers(ScheduleSource(db, member, today), recipientId);
  }

  /**
   * Closing the pop-up does two things: it marks the recipient row read and
   * filters the in-memory feed. They agree: reloading the feed from the
   * updated table gives exactly the filtered feed (before sorting).
   */
  lemma ReloadAfterMarkRead(db: FeedTables, member: Id, today: Day, recipientId: Id, now: Instant)
    ensures Collect(db.(recipients := MarkRecipientRead(db.recipients, recipientId, now)), member, today)
         == RemoveRead(Collect(db, member, today), recipientId)
  {
    var db' := db.(recipients := MarkRecipientRead(db.recipients, recipientId, now));
    AdminSourceAfterMark(db.recipients, db.notifications, member, recipientId, now);
    OtherSourcesKept(db, member, today, recipientId);
    var a, b, c := AdminSource(db, member), SubstitutionSource(db, member), ScheduleSource(db, member, today);
    assert SubstitutionSource(db', member) == b;
    assert ScheduleSource(db', member, today) == c;
    RemoveReadConcat(a + b, c, recipientId);
    RemoveReadConcat(a, b, recipientId);
  }

  /**
   * The same agreement for the feed on screen, which is sorted: if `shown`
   * is what loading `db` displays and `reloaded` is what loading the
   * updated table displays (each a sorted, stable arrangement of its
   * gathered feed, as `LoadNotifications` promises), then filtering `shown`
   * in memory gives exactly `reloaded`, entry for entry and in order.
   */
  lemma ShownFeedAfterMarkRead(db: FeedTables, member: Id, today: Day, recipientId: Id, now: Instant,
                               shown: seq<Notification>, reloaded: seq<Notification>)
    requires Sorted(shown) && multiset(shown) == multiset(Collect(db, member, today))
    requires forall e :: Filter(shown, RankOf(e)) == Filter(Collect(db, member, today), RankOf(e))
    requires var db' := db.(recipients := MarkRecipientRead(db.recipients, recipientId, now));
      Sorted(reloaded) && multiset(reloaded) == multiset(Collect(db', member, today))
    requires var db' := db.(recipients := MarkRecipientRead(db.recipients, recipientId, now));
      forall e :: Filter(reloaded, RankOf(e)) == Filter(Collect(db', member, today), RankOf(e))
    ensures RemoveRead(shown, recipientId) == reloaded
  {
    var db' := db.(recipients := MarkRecipientRead(db.recipients, recipientId, now));
    var gathered, keep := Collect(db, member, today), KeepUnlessRead(recipientId);
    var filtered := RemoveRead(shown, recipientId);
    ReloadAfterMarkRead(db, member, today, recipientId, now);
    assert Collect(db', member, today) == Filter(gathered, keep);
    RemoveReadSorted(shown, recipientId);
    FilterMultiset(shown, gathered, keep);
    forall e ensures Filter(filtered, RankOf(e)) == Filter(reloaded, RankOf(e)) {
      FilterCommutes(shown, keep, RankOf(e));
      FilterCommutes(gathered, keep, RankOf(e));
    }
    SortedUnique(filtered, reloaded);
  }

  /** Marking the same message read twice leaves the reloaded feed as marking it once. */
  lemma MarkReadTwice(db: FeedTables, member: Id, today: Day, recipientId: Id, first: Instant, second: Instant)
    ensures var once := db.(recipients := MarkRecipientRead(db.recipients, recipientId, first));
      var twice := once.(recipients := MarkRecipientRead(once.recipients, recipientId, second));
      Collect(twice, member, today) == Collect(once, member, today)
  {
    var once := db.(recipients := MarkRecipientRead(db.recipients, recipientId, first));
    ReloadAfterMarkRead(db, member, today, recipientId, first);
    ReloadAfterMarkRead(once, member, today, recipientId, second);
    RemoveReadIdempotent(Collect(db, member, today), recipientId);
  }
}
