/**
 * The member edit dialog: the list of instruments being edited (append of a
 * trimmed, new value; removal of a chip by position), the list loaded when the
 * dialog opens, and the save, which updates the member row and then replaces
 * the member's `member_instruments` rows by the edited list.
 */
module EditMember {
  import opened Wrappers
  import opened Seqs
  import opened Tables
  import opened Text

  /** No value occurs twice. */
  predicate NoDuplicates(s: seq<string>)
  {
    forall i, j :: 0 <= i < j < |s| ==> s[i] != s[j]
  }

  // ---------------------------------------------------------------------------
  // Editing the list
  // ---------------------------------------------------------------------------

  /** The dialog's instrument chips and the text typed in the instrument field. */
  datatype Editor = Editor(instruments: seq<string>, input: string)

  /**
   * Enter in the field, or the add button: the trimmed input is appended when
   * it is not empty and not already listed; the field is cleared either way.
   */
  function AddInstrument(e: Editor): (r: Editor)
    ensures r.input == ""
    ensures |e.instruments| <= |r.instruments| <= |e.instruments| + 1
    ensures r.instruments[..|e.instruments|] == e.instruments
    ensures |r.instruments| == |e.instruments| + 1 <==> Trim(e.input) != "" && Trim(e.input) !in e.instruments
    ensures |r.instruments| == |e.instruments| + 1 ==> r.instruments[|e.instruments|] == Trim(e.input)
    ensures Trim(e.input) != "" ==> Trim(e.input) in r.instruments
    ensures NoDuplicates(e.instruments) ==> NoDuplicates(r.instruments)
  {
    var v := Trim(e.input);
    if v != "" && v !in e.instruments then Editor(e.instruments + [v], "")
    else Editor(e.instruments, "")
  }

  /** Adding what was just added, or what is already listed, changes nothing but the field. */
  lemma AddInstrumentTwice(e: Editor, text: string)
    ensures var once := AddInstrument(e.(input := text));
      AddInstrument(once.(input := text)) == once
  {
    var once := AddInstrument(e.(input := text));
    assert Trim(text) != "" ==> Trim(text) in once.instruments;
  }

  /**
   * The close button of chip `idx`: keep every element whose position is not
   * `idx`. Out of range, nothing is removed.
   */
  function RemoveAt(s: seq<string>, idx: int): (r: seq<string>)
    ensures r == if 0 <= idx < |s| then s[..idx] + s[idx + 1..] else s
  {
    if s == [] then []
    else
      var n := |s| - 1;
      var init := RemoveAt(s[..n], idx);
      assert 0 <= idx < n ==> s[..n][..idx] == s[..idx] && s[..n][idx + 1..] + [s[n]] == s[idx + 1..];
      init + (if n != idx then [s[n]] else [])
  }

  /** After removing a chip, each later element moves one place to the left. */
  lemma RemoveAtIndex(s: seq<string>, idx: int)
    requires 0 <= idx < |s|
    ensures |RemoveAt(s, idx)| == |s| - 1
    ensures forall i :: 0 <= i < idx ==> RemoveAt(s, idx)[i] == s[i]
    ensures forall i :: idx <= i < |s| - 1 ==> RemoveAt(s, idx)[i] == s[i + 1]
  {
  }

  /** Removing a chip keeps the list free of duplicates. */
  lemma RemoveAtNoDuplicates(s: seq<string>, idx: int)
    requires NoDuplicates(s)
    requires 0 <= idx < |s|
    ensures NoDuplicates(RemoveAt(s, idx))
  {
    var r := RemoveAt(s, idx);
    RemoveAtIndex(s, idx);
    forall i, j | 0 <= i < j < |r| ensures r[i] != r[j] {
      var si := if i < idx then i else i + 1;
      var sj := if j < idx then j else j + 1;
      assert r[i] == s[si] && r[j] == s[sj] && si < sj;
    }
  }

  /** Removing a chip keeps every other value of the list. */
  lemma RemoveAtKeepsOthers(s: seq<string>, idx: int)
    requires 0 <= idx < |s|
    ensures forall x :: x in s && x != s[idx] ==> x in RemoveAt(s, idx)
  {
    var r := RemoveAt(s, idx);
    RemoveAtIndex(s, idx);
    forall x | x in s && x != s[idx] ensures x in r {
      var k :| 0 <= k < |s| && s[k] == x;
      assert r[if k < idx then k else k - 1] == x;
    }
  }

  /** Every value left after removing a chip stood at another position. */
  lemma RemoveAtFrom(s: seq<string>, idx: int)
    requires 0 <= idx < |s|
    ensures forall x :: x in RemoveAt(s, idx) ==> exists k :: 0 <= k < |s| && k != idx && s[k] == x
  {
    var r := RemoveAt(s, idx);
    RemoveAtIndex(s, idx);
    forall x | x in r ensures exists k :: 0 <= k < |s| && k != idx && s[k] == x {
      var k :| 0 <= k < |r| && r[k] == x;
      var sk := if k < idx then k else k + 1;
      assert s[sk] == x;
    }
  }

  /** In a list without duplicates, removing a chip drops exactly that value. */
  lemma RemoveAtMembers(s: seq<string>, idx: int)
    requires NoDuplicates(s)
    requires 0 <= idx < |s|
    ensures forall x :: x in RemoveAt(s, idx) <==> x in s && x != s[idx]
  {
    RemoveAtKeepsOthers(s, idx);
    RemoveAtFrom(s, idx);
  }

  // ---------------------------------------------------------------------------
  // The instruments table
  // ---------------------------------------------------------------------------

  function OfMember(memberId: Id): MemberInstrument -> bool
  {
    (row: MemberInstrument) => row.memberId == memberId
  }

  function InstrumentOf(row: MemberInstrument): string
  {
    row.instrument
  }

  /**
   * Opening the dialog: the instruments of the member's rows, in table order;
   * a failed read yields the empty list.
   */
  function LoadInstruments(rows: seq<MemberInstrument>, memberId: Id, readFails: bool): seq<string>
  {
    if readFails then [] else Map(Filter(rows, OfMember(memberId)), InstrumentOf)
  }

  /** A successful load lists exactly the member's stored instrument values, one per row. */
  lemma LoadInstrumentsMembers(rows: seq<MemberInstrument>, memberId: Id)
    ensures forall v :: v in LoadInstruments(rows, memberId, false) <==> MemberInstrument(memberId, v) in rows
    ensures |LoadInstruments(rows, memberId, false)| == |Filter(rows, OfMember(memberId))|
  {
    var mine := Filter(rows, OfMember(memberId));
    var r := LoadInstruments(rows, memberId, false);
    FilterMembers(rows, OfMember(memberId));
    forall v | v in r ensures MemberInstrument(memberId, v) in rows {
      var k :| 0 <= k < |r| && r[k] == v;
      assert mine[k] in mine;
    }
    forall v | MemberInstrument(memberId, v) in rows ensures v in r {
      var row := MemberInstrument(memberId, v);
      assert row in mine;
      var k :| 0 <= k < |mine| && mine[k] == row;
      assert r[k] == v;
    }
  }

  /** `.delete().eq("member_id", memberId)` on `member_instruments`. */
  function DeleteInstrumentsOf(rows: seq<MemberInstrument>, memberId: Id): seq<MemberInstrument>
  {
    Filter(rows, (row: MemberInstrument) => row.memberId != memberId)
  }

  /** The rows inserted for the list: one per element, in list order. */
  function InstrumentRows(memberId: Id, instruments: seq<string>): (r: seq<MemberInstrument>)
    ensures |r| == |instruments|
    ensures forall i :: 0 <= i < |r| ==> r[i] == MemberInstrument(memberId, instruments[i])
  {
    Map(instruments, (v: string) => MemberInstrument(memberId, v))
  }

  /**
   * The replacement on save: delete the member's rows, then, for a non-empty
   * list, insert one row per element. A failed delete leaves the table as it
   * was and the insert is still issued; a failed insert adds nothing.
   */
  function ReplaceInstruments(rows: seq<MemberInstrument>, memberId: Id, instruments: seq<string>,
                              deleteFails: bool, insertFails: bool): seq<MemberInstrument>
  {
    var afterDelete := if deleteFails then rows else DeleteInstrumentsOf(rows, memberId);
    if |instruments| > 0 && !insertFails then afterDelete + InstrumentRows(memberId, instruments) else afterDelete
  }

  /** The rows of another member are the same, in the same order, after any replacement. */
  lemma ReplaceKeepsOtherMembers(rows: seq<MemberInstrument>, memberId: Id, instruments: seq<string>,
                                 deleteFails: bool, insertFails: bool, other: Id)
    requires other != memberId
    ensures Filter(ReplaceInstruments(rows, memberId, instruments, deleteFails, insertFails), OfMember(other))
         == Filter(rows, OfMember(other))
  {
    var afterDelete := if deleteFails then rows else DeleteInstrumentsOf(rows, memberId);
    var keep := (row: MemberInstrument) => row.memberId != memberId;
    var inserted := InstrumentRows(memberId, instruments);
    if !deleteFails {
      FilterMembers(rows, keep);
      FilterOfFilter(rows, keep, OfMember(other));
    }
    FilterConcat(afterDelete, inserted, OfMember(other));
    FilterNone(inserted, OfMember(other));
  }

  /** Filtering out one member's rows does not change which rows of another member there are. */
  lemma {:induction false} FilterOfFilter(rows: seq<MemberInstrument>, keep: MemberInstrument -> bool, p: MemberInstrument -> bool)
    requires forall row :: p(row) ==> keep(row)
    ensures Filter(Filter(rows, keep), p) == Filter(rows, p)
    decreases |rows|
  {
    if rows != [] {
      var n := |rows| - 1;
      assert rows == rows[..n] + [rows[n]];
      FilterOfFilter(rows[..n], keep, p);
      FilterConcat(rows[..n], [rows[n]], keep);
      FilterConcat(rows[..n], [rows[n]], p);
      FilterSingleton(rows[n], keep);
      FilterSingleton(rows[n], p);
      FilterConcat(Filter(rows[..n], keep), Filter([rows[n]], keep), p);
      FilterSingleton(rows[n], p);
    }
  }

  lemma FilterNone(rows: seq<MemberInstrument>, p: MemberInstrument -> bool)
    requires forall row :: row in rows ==> !p(row)
    ensures Filter(rows, p) == []
  {
    FilterMembers(rows, p);
    EmptyWithoutMembers(Filter(rows, p));
  }

  /**
   * When both calls succeed, opening the dialog again loads exactly the saved
   * list, in order; for the empty list the member is left with no rows.
   */
  lemma ReplaceThenLoad(rows: seq<MemberInstrument>, memberId: Id, instruments: seq<string>)
    ensures LoadInstruments(ReplaceInstruments(rows, memberId, instruments, false, false), memberId, false) == instruments
  {
    var afterDelete := DeleteInstrumentsOf(rows, memberId);
    var inserted := InstrumentRows(memberId, instruments);
    FilterMembers(rows, (row: MemberInstrument) => row.memberId != memberId);
    FilterNone(afterDelete, OfMember(memberId));
    FilterKeepsAll(inserted, OfMember(memberId));
    var loaded := Filter(ReplaceInstruments(rows, memberId, instruments, false, false), OfMember(memberId));
    if |instruments| > 0 {
      FilterConcat(afterDelete, inserted, OfMember(memberId));
      assert loaded == inserted;
      assert Map(inserted, InstrumentOf) == instruments;
    } else {
      assert loaded == [];
    }
  }

  /**
   * When the delete fails but the insert succeeds, the member keeps the old
   * rows and gains one row per listed instrument.
   */
  lemma ReplaceAfterFailedDelete(rows: seq<MemberInstrument>, memberId: Id, instruments: seq<string>)
    ensures LoadInstruments(ReplaceInstruments(rows, memberId, instruments, true, false), memberId, false)
         == LoadInstruments(rows, memberId, false) + instruments
  {
    var inserted := InstrumentRows(memberId, instruments);
    FilterKeepsAll(inserted, OfMember(memberId));
    FilterConcat(rows, inserted, OfMember(memberId));
    MapConcat(Filter(rows, OfMember(memberId)), inserted, InstrumentOf);
    assert Map(inserted, InstrumentOf) == instruments;
  }

  // ---------------------------------------------------------------------------
  // The member row
  // ---------------------------------------------------------------------------

  /** The form's fields: optional columns are edited as text, empty for null. */
  datatype MemberForm = MemberForm(name: string, role: string, phone: string, email: string, photoUrl: string)

  /** `value || null`: the empty string is stored as null. */
  function NullIfEmpty(s: string): Option<string>
  {
    if s == "" then None else Some(s)
  }

  /** `value || ""`: null is edited as the empty string. */
  function EmptyIfNull(v: Option<string>): string
  {
    match v
    case None => ""
    case Some(s) => s
  }

  /** A column that is null or holds a non-empty value comes back unchanged from the form. */
  lemma NullIfEmptyRoundTrip(v: Option<string>)
    requires v != Some("")
    ensures NullIfEmpty(EmptyIfNull(v)) == v
  {
  }

  /** The form as the dialog first fills it from the member row. */
  function FormOf(m: Member): MemberForm
  {
    MemberForm(m.name, RoleName(m.role), EmptyIfNull(m.phone), EmptyIfNull(m.email), EmptyIfNull(m.photoUrl))
  }

  /**
   * The error the database reports for the update: a role that is not one of
   * the nine labels fails the enum cast; otherwise the injected failure, if any.
   */
  function UpdateError(form: MemberForm, fault: Option<string>): Option<string>
  {
    if ParseRole(form.role).None? then Some("invalid input value for enum member_role: \"" + form.role + "\"")
    else fault
  }

  /** The updated row: the form's text, with empty optional columns stored as null. */
  function Updated(m: Member, form: MemberForm, role: MemberRole): Member
  {
    m.(name := form.name, role := role, phone := NullIfEmpty(form.phone), email := NullIfEmpty(form.email),
       photoUrl := NullIfEmpty(form.photoUrl))
  }

  /** `.update({...}).eq("id", memberId)` on `members`; a failed update changes nothing. */
  function UpdateMember(members: seq<Member>, memberId: Id, form: MemberForm, fault: Option<string>): (r: seq<Member>)
    ensures |r| == |members|
  {
    if UpdateError(form, fault).Some? then members
    else
      var role := ParseRole(form.role).value;
      Map(members, (m: Member) => if m.id == memberId then Updated(m, form, role) else m)
  }

  /**
   * A successful update gives the member's row the form's name and role and
   * its phone, email and photo as typed, empty ones as null; every other row,
   * and every column the form does not hold, is unchanged. A role outside the
   * enumeration, or a failing call, changes nothing.
   */
  lemma UpdateMemberRows(members: seq<Member>, memberId: Id, form: MemberForm, fault: Option<string>, i: nat)
    requires i < |members|
    ensures var r := UpdateMember(members, memberId, form, fault);
      && (ParseRole(form.role).None? || fault.Some? ==> r == members)
      && (members[i].id != memberId ==> r[i] == members[i])
      && (ParseRole(form.role).Some? && fault.None? && members[i].id == memberId ==>
            && r[i].id == memberId && r[i].active == members[i].active
            && r[i].name == form.name && RoleName(r[i].role) == form.role
            && (r[i].phone.None? <==> form.phone == "") && (r[i].phone.Some? ==> r[i].phone.value == form.phone)
            && (r[i].email.None? <==> form.email == "") && (r[i].email.Some? ==> r[i].email.value == form.email)
            && (r[i].photoUrl.None? <==> form.photoUrl == "") && (r[i].photoUrl.Some? ==> r[i].photoUrl.value == form.photoUrl))
  {
  }

  /** No stored optional column is ever the empty string after an update. */
  lemma UpdateStoresNoEmptyText(members: seq<Member>, memberId: Id, form: MemberForm, fault: Option<string>)
    requires UpdateError(form, fault).None?
    ensures forall m :: m in UpdateMember(members, memberId, form, fault) && m.id == memberId ==>
      m.phone != Some("") && m.email != Some("") && m.photoUrl != Some("")
  {
    var r := UpdateMember(members, memberId, form, fault);
    forall m | m in r && m.id == memberId ensures m.phone != Some("") && m.email != Some("") && m.photoUrl != Some("") {
      var k :| 0 <= k < |r| && r[k] == m;
      assert members[k].id == memberId;
    }
  }

  /** Saving the form as it was first filled leaves a row without empty-text columns unchanged. */
  lemma SaveUnchangedForm(m: Member, fault: Option<string>)
    requires fault.None?
    requires m.phone != Some("") && m.email != Some("") && m.photoUrl != Some("")
    ensures UpdateMember([m], m.id, FormOf(m), fault) == [m]
  {
    RoleRoundTrip(m.role);
    NullIfEmptyRoundTrip(m.phone);
    NullIfEmptyRoundTrip(m.email);
    NullIfEmptyRoundTrip(m.photoUrl);
  }

  // ---------------------------------------------------------------------------
  // Saving
  // ---------------------------------------------------------------------------

  /** The failures the three database calls of a save report. */
  datatype SaveFaults = SaveFaults(update: Option<string>, delete: Option<string>, insert: Option<string>)

  /** The `members` and `member_instruments` tables, updated in place by a save. */
  class MemberStore {
    var members: seq<Member>
    var memberInstruments: seq<MemberInstrument>

    constructor (members: seq<Member>, memberInstruments: seq<MemberInstrument>)
      ensures this.members == members && this.memberInstruments == memberInstruments
    {
      this.members := members;
      this.memberInstruments := memberInstruments;
    }

    /**
     * Submitting the dialog: update the member row, then replace the member's
     * instrument rows whatever the update answered; errors of the replacement
     * are swallowed. Returns the update's error, which the dialog shows.
     */
    method HandleSubmit(memberId: Id, form: MemberForm, instruments: seq<string>, faults: SaveFaults)
      returns (updateError: Option<string>)
      modifies this
      ensures updateError == UpdateError(form, faults.update)
      ensures ParseRole(form.role).None? ==> updateError.Some? && members == old(members)
      ensures members == UpdateMember(old(members), memberId, form, faults.update)
      ensures memberInstruments == ReplaceInstruments(old(memberInstruments), memberId, instruments,
                                                      faults.delete.Some?, faults.insert.Some?)
    {
      updateError := UpdateError(form, faults.update);
      if updateError.None? {
        var role := ParseRole(form.role).value;
        members := Map(members, (m: Member) => if m.id == memberId then Updated(m, form, role) else m);
      }
      if faults.delete.None? {
        memberInstruments := DeleteInstrumentsOf(memberInstruments, memberId);
      }
      if |instruments| > 0 && faults.insert.None? {
        memberInstruments := memberInstruments + InstrumentRows(memberId, instruments);
      }
    }
  }
}
