/**
 * The retention sweep: a scheduled job that permanently removes schedules
 * dated more than thirty days ago, together with the rows of the three
 * tables that reference them.
 *
 * `Sweep` states, on values, what one run does to the four tables and what it
 * answers; `ScheduleStore.CleanupOldSchedules` performs the same run step by
 * step on a store whose tables it updates in place, and is proved to agree
 * with `Sweep`. The lemmas state what the job promises about `Sweep`.
 */
module Cleanup {
  import opened Wrappers
  import opened Seqs
  import opened Tables

  /** Schedules older than this many days are removed. */
  const RetentionDays := 30

  /** The date thirty days before `today`; schedules dated strictly before it are removed. */
  function Cutoff(today: Day): Day
  {
    today - RetentionDays
  }

  /** The four tables the sweep touches. */
  datatype ScheduleTables = ScheduleTables(
    schedules: seq<Schedule>,
    scheduleMembers: seq<ScheduleMember>,
    availability: seq<MemberAvailability>,
    substitutions: seq<SubstitutionRequest>)

  /**
   * The failure, if any, that each of the five database calls reports: the
   * select of old schedules, the deletes from the three dependent tables, and
   * the delete of the schedules themselves.
   */
  datatype Faults = Faults(
    select: Option<string>,
    scheduleMembers: Option<string>,
    availability: Option<string>,
    substitutions: Option<string>,
    schedules: Option<string>)

  const NoFaults := Faults(None, None, None, None, None)

  /** The JSON body of the answer. */
  datatype Body =
    | Summary(message: string, deleted: nat)
    | ErrorBody(error: string)

  datatype Response = Response(status: int, body: Body)

  datatype Outcome = Outcome(tables: ScheduleTables, response: Response)

  const NothingToDelete := "No old schedules to delete"
  const CleanedUp := "Old schedules cleaned up successfully"

  function IsOld(cutoff: Day): Schedule -> bool
  {
    (s: Schedule) => s.date < cutoff
  }

  function ScheduleId(s: Schedule): Id
  {
    s.id
  }

  /** The rows of `schedules` dated strictly before the cutoff. */
  function OldSchedules(schedules: seq<Schedule>, cutoff: Day): seq<Schedule>
  {
    Filter(schedules, IsOld(cutoff))
  }

  /** The ids the sweep selects, one per old schedule, in table order. */
  function OldIds(schedules: seq<Schedule>, cutoff: Day): (ids: seq<Id>)
    ensures |ids| == |OldSchedules(schedules, cutoff)|
  {
    Map(OldSchedules(schedules, cutoff), ScheduleId)
  }

  // The four deletes `.delete().in(column, ids)`.

  function DeleteScheduleMembers(rows: seq<ScheduleMember>, ids: seq<Id>): seq<ScheduleMember>
  {
    Filter(rows, (r: ScheduleMember) => r.scheduleId !in ids)
  }

  function DeleteAvailability(rows: seq<MemberAvailability>, ids: seq<Id>): seq<MemberAvailability>
  {
    Filter(rows, (r: MemberAvailability) => r.scheduleId !in ids)
  }

  function DeleteSubstitutions(rows: seq<SubstitutionRequest>, ids: seq<Id>): seq<SubstitutionRequest>
  {
    Filter(rows, (r: SubstitutionRequest) => r.scheduleId !in ids)
  }

  function DeleteSchedules(rows: seq<Schedule>, ids: seq<Id>): seq<Schedule>
  {
    Filter(rows, (s: Schedule) => s.id !in ids)
  }

  /** A dependent delete happens unless its call reports a failure, in which case the table is left as it was. */
  function Attempt<T>(fault: Option<string>, before: T, after: T): T
  {
    if fault.Some? then before else after
  }

  /**
   * One run of the sweep on `db` with today's date `today`. A failed select
   * answers 500 and changes nothing; an empty selection answers "nothing to
   * delete" with zero; otherwise the three dependent tables are cleared of
   * rows referencing the selected ids (each failure there only skips that
   * table), then the schedules are deleted, whose failure answers 500.
   */
  function Sweep(db: ScheduleTables, today: Day, faults: Faults): Outcome
  {
    if faults.select.Some? then
      Outcome(db, Response(500, ErrorBody(faults.select.value)))
    else
      var ids := OldIds(db.schedules, Cutoff(today));
      if |ids| == 0 then
        Outcome(db, Response(200, Summary(NothingToDelete, 0)))
      else
        var cleared := db.(
          scheduleMembers := Attempt(faults.scheduleMembers, db.scheduleMembers, DeleteScheduleMembers(db.scheduleMembers, ids)),
          availability := Attempt(faults.availability, db.availability, DeleteAvailability(db.availability, ids)),
          substitutions := Attempt(faults.substitutions, db.substitutions, DeleteSubstitutions(db.substitutions, ids)));
        if faults.schedules.Some? then
          Outcome(cleared, Response(500, ErrorBody(faults.schedules.value)))
        else
          Outcome(cleared.(schedules := DeleteSchedules(db.schedules, ids)), Response(200, Summary(CleanedUp, |ids|)))
  }

  /** The four tables, held by the database and updated in place by the sweep. */
  class ScheduleStore {
    var schedules: seq<Schedule>
    var scheduleMembers: seq<ScheduleMember>
    var availability: seq<MemberAvailability>
    var substitutions: seq<SubstitutionRequest>

    function Snapshot(): ScheduleTables
      reads this
    {
      ScheduleTables(schedules, scheduleMembers, availability, substitutions)
    }

    constructor (db: ScheduleTables)
      ensures Snapshot() == db
    {
      schedules := db.schedules;
      scheduleMembers := db.scheduleMembers;
      availability := db.availability;
      substitutions := db.substitutions;
    }

    /** The handler of the scheduled job: the five calls in order, with the failure policy of each. */
    method CleanupOldSchedules(today: Day, faults: Faults) returns (response: Response)
      modifies this
      ensures Snapshot() == Sweep(old(Snapshot()), today, faults).tables
      ensures response == Sweep(old(Snapshot()), today, faults).response
    {
      var cutoff := Cutoff(today);
      if faults.select.Some? {
        return Response(500, ErrorBody(faults.select.value));
      }
      var scheduleIds := OldIds(schedules, cutoff);
      if |scheduleIds| == 0 {
        return Response(200, Summary(NothingToDelete, 0));
      }
      if faults.scheduleMembers.None? {
        scheduleMembers := DeleteScheduleMembers(scheduleMembers, scheduleIds);
      }
      if faults.availability.None? {
        availability := DeleteAvailability(availability, scheduleIds);
      }
      if faults.substitutions.None? {
        substitutions := DeleteSubstitutions(substitutions, scheduleIds);
      }
      if faults.schedules.Some? {
        return Response(500, ErrorBody(faults.schedules.value));
      }
      schedules := DeleteSchedules(schedules, scheduleIds);
      return Response(200, Summary(CleanedUp, |scheduleIds|));
    }
  }

  // ---------------------------------------------------------------------------
  // What a run selects
  // ---------------------------------------------------------------------------

  /** The selected ids are exactly the ids of schedules dated strictly before the cutoff. */
  lemma OldIdsMembers(schedules: seq<Schedule>, cutoff: Day)
    ensures forall id :: id in OldIds(schedules, cutoff) <==> exists s :: s in schedules && s.date < cutoff && s.id == id
  {
    var selected := OldSchedules(schedules, cutoff);
    var ids := OldIds(schedules, cutoff);
    FilterMembers(schedules, IsOld(cutoff));
    forall id | id in ids ensures exists s :: s in schedules && s.date < cutoff && s.id == id {
      var k :| 0 <= k < |ids| && ids[k] == id;
      assert selected[k] in selected;
    }
    forall s | s in schedules && s.date < cutoff ensures s.id in ids {
      assert s in selected;
      var k :| 0 <= k < |selected| && selected[k] == s;
      assert ids[k] == s.id;
    }
  }

  /**
   * A schedule dated the day before the cutoff is selected and one dated on
   * the cutoff is not (for a table where each id names one schedule).
   */
  lemma CutoffBoundary(schedules: seq<Schedule>, today: Day, s: Schedule)
    requires s in schedules
    requires forall t :: t in schedules && t.id == s.id ==> t == s
    ensures s.id in OldIds(schedules, Cutoff(today)) <==> s.date <= today - RetentionDays - 1
  {
    OldIdsMembers(schedules, Cutoff(today));
  }

  // ---------------------------------------------------------------------------
  // Answers
  // ---------------------------------------------------------------------------

  /** A failed select answers 500 with its message and deletes nothing. */
  lemma SelectFailureChangesNothing(db: ScheduleTables, today: Day, faults: Faults)
    requires faults.select.Some?
    ensures Sweep(db, today, faults) == Outcome(db, Response(500, ErrorBody(faults.select.value)))
  {
  }

  /** With no schedule before the cutoff, the run reports zero deletions and changes no table. */
  lemma NothingOldChangesNothing(db: ScheduleTables, today: Day, faults: Faults)
    requires faults.select.None?
    requires forall s :: s in db.schedules ==> s.date >= Cutoff(today)
    ensures Sweep(db, today, faults) == Outcome(db, Response(200, Summary(NothingToDelete, 0)))
  {
    OldIdsMembers(db.schedules, Cutoff(today));
    EmptyWithoutMembers(OldIds(db.schedules, Cutoff(today)));
  }

  /**
   * The answer is 200 exactly when neither the select nor the delete of the
   * schedules fails (or nothing was old), and its count is the number of
   * schedules dated before the cutoff.
   */
  lemma SweepResponse(db: ScheduleTables, today: Day, faults: Faults)
    ensures var r := Sweep(db, today, faults).response;
      && (r.status == 200 <==> faults.select.None? && (faults.schedules.None? || |OldSchedules(db.schedules, Cutoff(today))| == 0))
      && (r.status == 200 ==> r.body.Summary? && r.body.deleted == |OldSchedules(db.schedules, Cutoff(today))|)
      && (r.status == 500 ==> r.body.ErrorBody?)
  {
  }

  // ---------------------------------------------------------------------------
  // What a run removes, and what it keeps
  // ---------------------------------------------------------------------------

  /** No schedule that is still older than the cutoff remains after a successful run. */
  lemma SuccessRemovesOldSchedules(db: ScheduleTables, today: Day, faults: Faults)
    requires faults.select.None? && faults.schedules.None?
    ensures forall s :: s in Sweep(db, today, faults).tables.schedules <==> s in db.schedules && s.date >= Cutoff(today)
                                                                             && s.id !in OldIds(db.schedules, Cutoff(today))
    ensures forall s :: s in Sweep(db, today, faults).tables.schedules ==> s.date >= Cutoff(today)
  {
    var ids := OldIds(db.schedules, Cutoff(today));
    OldIdsMembers(db.schedules, Cutoff(today));
    FilterMembers(db.schedules, (s: Schedule) => s.id !in ids);
  }

  /**
   * After a run whose dependent deletes succeed, none of the dependent rows
   * references a selected schedule; the rows that remain are exactly the
   * earlier rows that reference other schedules.
   */
  lemma DependentsCleared(db: ScheduleTables, today: Day, faults: Faults)
    requires faults.select.None?
    ensures var ids := OldIds(db.schedules, Cutoff(today));
      var t := Sweep(db, today, faults).tables;
      && (faults.scheduleMembers.None? ==> forall r :: r in t.scheduleMembers <==> r in db.scheduleMembers && r.scheduleId !in ids)
      && (faults.availability.None? ==> forall r :: r in t.availability <==> r in db.availability && r.scheduleId !in ids)
      && (faults.substitutions.None? ==> forall r :: r in t.substitutions <==> r in db.substitutions && r.scheduleId !in ids)
  {
    var ids := OldIds(db.schedules, Cutoff(today));
    FilterMembers(db.scheduleMembers, (r: ScheduleMember) => r.scheduleId !in ids);
    FilterMembers(db.availability, (r: MemberAvailability) => r.scheduleId !in ids);
    FilterMembers(db.substitutions, (r: SubstitutionRequest) => r.scheduleId !in ids);
  }

  /**
   * A failed dependent delete leaves only its own table as it was: the
   * outcome is that of the same run without that failure, with that one table
   * restored.
   */
  lemma DependentFailureIsolated(db: ScheduleTables, today: Day, faults: Faults)
    ensures var clean := Sweep(db, today, faults.(scheduleMembers := None, availability := None, substitutions := None));
      var actual := Sweep(db, today, faults);
      && actual.response == clean.response
      && actual.tables.schedules == clean.tables.schedules
      && actual.tables.scheduleMembers == (if faults.scheduleMembers.Some? then db.scheduleMembers else clean.tables.scheduleMembers)
      && actual.tables.availability == (if faults.availability.Some? then db.availability else clean.tables.availability)
      && actual.tables.substitutions == (if faults.substitutions.Some? then db.substitutions else clean.tables.substitutions)
  {
  }

  /** A failed delete of the schedules answers 500 but the dependent deletes have already happened. */
  lemma ScheduleDeleteFailure(db: ScheduleTables, today: Day, faults: Faults)
    requires faults.select.None? && faults.schedules.Some?
    requires |OldSchedules(db.schedules, Cutoff(today))| > 0
    ensures var out := Sweep(db, today, faults);
      && out.response == Response(500, ErrorBody(faults.schedules.value))
      && out.tables.schedules == db.schedules
      && out.tables == Sweep(db, today, faults.(schedules := None)).tables.(schedules := db.schedules)
  {
  }

  /** Each table after a run holds only rows it held before. */
  lemma SweepOnlyRemoves(db: ScheduleTables, today: Day, faults: Faults)
    ensures var t := Sweep(db, today, faults).tables;
      && (forall s :: s in t.schedules ==> s in db.schedules)
      && (forall r :: r in t.scheduleMembers ==> r in db.scheduleMembers)
      && (forall r :: r in t.availability ==> r in db.availability)
      && (forall r :: r in t.substitutions ==> r in db.substitutions)
  {
    var ids := OldIds(db.schedules, Cutoff(today));
    FilterMembers(db.schedules, (s: Schedule) => s.id !in ids);
    FilterMembers(db.scheduleMembers, (r: ScheduleMember) => r.scheduleId !in ids);
    FilterMembers(db.availability, (r: MemberAvailability) => r.scheduleId !in ids);
    FilterMembers(db.substitutions, (r: SubstitutionRequest) => r.scheduleId !in ids);
  }

  /**
   * Nothing outside the cutoff is touched: a schedule dated on or after the
   * cutoff survives, and so does every dependent row referencing it (when
   * each id names one schedule).
   */
  lemma RecentRowsKept(db: ScheduleTables, today: Day, faults: Faults, s: Schedule)
    requires s in db.schedules && s.date >= Cutoff(today)
    requires forall t :: t in db.schedules && t.id == s.id ==> t == s
    ensures var t := Sweep(db, today, faults).tables;
      && s in t.schedules
      && (forall r :: r in db.scheduleMembers && r.scheduleId == s.id ==> r in t.scheduleMembers)
      && (forall r :: r in db.availability && r.scheduleId == s.id ==> r in t.availability)
      && (forall r :: r in db.substitutions && r.scheduleId == s.id ==> r in t.substitutions)
  {
    var ids := OldIds(db.schedules, Cutoff(today));
    OldIdsMembers(db.schedules, Cutoff(today));
    assert s.id !in ids;
    FilterMembers(db.schedules, (t: Schedule) => t.id !in ids);
    FilterMembers(db.scheduleMembers, (r: ScheduleMember) => r.scheduleId !in ids);
    FilterMembers(db.availability, (r: MemberAvailability) => r.scheduleId !in ids);
    FilterMembers(db.substitutions, (r: SubstitutionRequest) => r.scheduleId !in ids);
  }

  // ---------------------------------------------------------------------------
  // Referential integrity
  // ---------------------------------------------------------------------------

  function ScheduleIdSet(schedules: seq<Schedule>): set<Id>
  {
    set s | s in schedules :: s.id
  }

  /** Every dependent row references an existing schedule. */
  predicate NoDangling(db: ScheduleTables)
  {
    var ids := ScheduleIdSet(db.schedules);
    && (forall r :: r in db.scheduleMembers ==> r.scheduleId in ids)
    && (forall r :: r in db.availability ==> r.scheduleId in ids)
    && (forall r :: r in db.substitutions ==> r.scheduleId in ids)
  }

  /** A run whose dependent deletes all succeed never leaves a dependent row without its schedule. */
  lemma SweepKeepsNoDangling(db: ScheduleTables, today: Day, faults: Faults)
    requires NoDangling(db)
    requires faults.scheduleMembers.None? && faults.availability.None? && faults.substitutions.None?
    ensures NoDangling(Sweep(db, today, faults).tables)
  {
    var out := Sweep(db, today, faults).tables;
    SweepOnlyRemoves(db, today, faults);
    if faults.select.None? && |OldIds(db.schedules, Cutoff(today))| > 0 && faults.schedules.None? {
      var ids := OldIds(db.schedules, Cutoff(today));
      var kept := ScheduleIdSet(out.schedules);
      FilterMembers(db.schedules, (s: Schedule) => s.id !in ids);
      DependentsCleared(db, today, faults);
      forall id | id in ScheduleIdSet(db.schedules) && id !in ids ensures id in kept {
        var s :| s in db.schedules && s.id == id;
        assert s in out.schedules;
      }
      forall r | r in out.scheduleMembers ensures r.scheduleId in kept {
        assert r in db.scheduleMembers;
      }
      forall r | r in out.availability ensures r.scheduleId in kept {
        assert r in db.availability;
      }
      forall r | r in out.substitutions ensures r.scheduleId in kept {
        assert r in db.substitutions;
      }
    } else {
      assert out.schedules == db.schedules;
    }
  }

  /**
   * The handler itself does not keep dependent rows attached: when a
   * dependent delete fails and the delete of the schedules is not refused,
   * the run answers 200 and rows of that table are left referencing a deleted
   * schedule. Only a foreign key in the database, which is not modelled here,
   * can refuse that delete.
   */
  lemma DependentFailureCanOrphan()
    ensures var s := Schedule("s", "", 0, None, None, None);
      var r := ScheduleMember("m", "p", "s", None);
      var db := ScheduleTables([s], [r], [], []);
      var faults := NoFaults.(scheduleMembers := Some("timeout"));
      && NoDangling(db)
      && Sweep(db, 31, faults).response.status == 200
      && !NoDangling(Sweep(db, 31, faults).tables)
  {
    var s := Schedule("s", "", 0, None, None, None);
    assert OldSchedules([s], Cutoff(31)) == [s] by {
      FilterSingleton(s, IsOld(Cutoff(31)));
    }
    assert DeleteSchedules([s], ["s"]) == [] by {
      FilterSingleton(s, (t: Schedule) => t.id !in ["s"]);
    }
  }

  // ---------------------------------------------------------------------------
  // Running again
  // ---------------------------------------------------------------------------

  /** Run again with the same date after a successful run, the sweep reports zero and changes nothing. */
  lemma RerunAfterSuccess(db: ScheduleTables, today: Day, first: Faults, second: Faults)
    requires first.select.None? && first.schedules.None?
    requires second.select.None?
    ensures var after := Sweep(db, today, first).tables;
      Sweep(after, today, second) == Outcome(after, Response(200, Summary(NothingToDelete, 0)))
  {
    SuccessRemovesOldSchedules(db, today, first);
    NothingOldChangesNothing(Sweep(db, today, first).tables, today, second);
  }

  /**
   * After a first run that failed at the delete of the schedules, or whose
   * dependent deletes all succeeded, a clean run with the same date leaves
   * the tables exactly as one clean run would have: the deletes key off the
   * schedules that still exist, and deleting twice is deleting once.
   */
  lemma CleanRunAfterRun(db: ScheduleTables, today: Day, first: Faults)
    requires first.schedules.Some? || (first.scheduleMembers.None? && first.availability.None? && first.substitutions.None?)
    ensures Sweep(Sweep(db, today, first).tables, today, NoFaults).tables == Sweep(db, today, NoFaults).tables
  {
    var ids := OldIds(db.schedules, Cutoff(today));
    if first.select.None? && |ids| > 0 {
      if first.schedules.None? {
        RerunAfterSuccess(db, today, first, NoFaults);
      } else {
        FilterIdempotent(db.scheduleMembers, (r: ScheduleMember) => r.scheduleId !in ids);
        FilterIdempotent(db.availability, (r: MemberAvailability) => r.scheduleId !in ids);
        FilterIdempotent(db.substitutions, (r: SubstitutionRequest) => r.scheduleId !in ids);
      }
    }
  }
}
