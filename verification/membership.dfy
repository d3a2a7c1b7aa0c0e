/** Household membership: the add and edit household dialogs.
    The edit flow reconciles the residents linked to a household with the user's
    selection by set difference; the add flow links the whole selection to a freshly
    inserted household. Every store call is fail-fast: a refused call ends the
    submission and earlier writes are not undone. */
module Membership {
  import opened Wrappers
  import opened Schema
  import opened Text
  import opened Store
  import Seqs

  /** The household fields of the dialogs (coordinates are not modelled). */
  datatype HouseholdForm = HouseholdForm(
    houseNumber: string,
    purok: string,
    streetAddress: string,
    hasElectricity: bool,
    hasWater: bool)

  /** The columns a household insert or update writes. */
  datatype HouseholdPatch = HouseholdPatch(
    houseNumber: string,
    purok: Option<string>,
    streetAddress: Option<string>,
    hasElectricity: bool,
    hasWater: bool)

  datatype Db = Db(households: Table<HouseholdRow>, residents: Table<ResidentRow>)

  /** The two resident columns a membership update writes. */
  datatype Link = Link(householdId: Option<Id>, houseNumber: Option<string>)

  const Unlinked: Link := Link(None, None)

  /** The store calls a submission issues, in order. */
  datatype Call =
    | UpdateHousehold(id: Id, patch: HouseholdPatch)
    | InsertHousehold(patch: HouseholdPatch)
    | SelectMembers(householdId: Id)
    | UpdateResidents(ids: set<Id>, link: Link)

  datatype Status = Invalid(reason: string) | Failed(reason: string) | Saved

  datatype Submission = Submission(db: Db, calls: seq<Call>, status: Status)

  const HouseNumberRequired: string := "House number is required"
  const UpdateFailed: string := "Failed to update household"
  const CreateFailed: string := "Failed to create household"

  /** The set of ids listed in a selection. */
  function Ids(s: seq<Id>): set<Id> {
    set id | id in s
  }

  /** The columns written from the form: a trimmed house number, and a purok or street
      address that is blank after trimming becomes `null`. */
  function PatchOf(form: HouseholdForm): (p: HouseholdPatch)
    ensures p.houseNumber == Trim(form.houseNumber)
    ensures p.purok.None? <==> IsBlank(form.purok)
    ensures p.purok.Some? ==> p.purok.value == Trim(form.purok)
    ensures p.streetAddress.None? <==> IsBlank(form.streetAddress)
    ensures p.streetAddress.Some? ==> p.streetAddress.value == Trim(form.streetAddress)
    ensures p.hasElectricity == form.hasElectricity && p.hasWater == form.hasWater
  {
    HouseholdPatch(
      Trim(form.houseNumber),
      OrNull(Trim(form.purok)),
      OrNull(Trim(form.streetAddress)),
      form.hasElectricity,
      form.hasWater)
  }

  function ApplyPatch(row: HouseholdRow, p: HouseholdPatch): HouseholdRow {
    row.(houseNumber := p.houseNumber, purok := p.purok, streetAddress := p.streetAddress,
         hasElectricity := Some(p.hasElectricity), hasWater := Some(p.hasWater))
  }

  function NewHousehold(id: Id, p: HouseholdPatch): HouseholdRow {
    HouseholdRow(id, p.houseNumber, p.purok, p.streetAddress, Some(p.hasElectricity), Some(p.hasWater), None)
  }

  function Relink(row: ResidentRow, link: Link): ResidentRow {
    row.(householdId := link.householdId, houseNumber := link.houseNumber)
  }

  /** `.select("id").eq("household_id", hid)`: the residents currently linked to `hid`. */
  function Members(residents: Table<ResidentRow>, hid: Id): (m: set<Id>)
    ensures forall id :: id in m <==> id in residents && residents[id].householdId == Some(hid)
  {
    set id | id in residents && residents[id].householdId == Some(hid)
  }

  /** The current members that are no longer selected. */
  function ToRemove(current: set<Id>, selected: seq<Id>): (r: set<Id>)
    ensures forall id :: id in r <==> id in current && id !in selected
  {
    set id | id in current && id !in selected
  }

  /** The selected ids that are not current members, in selection order. */
  function ToAdd(current: set<Id>, selected: seq<Id>): (r: seq<Id>)
    ensures forall id :: id in r <==> id in selected && id !in current
    ensures Seqs.IsSubsequence(r, selected)
  {
    Seqs.Filter(selected, id => id !in current)
  }

  /** The two diffs never share an id, and together with the kept members they cover
      exactly the current members and the selection. */
  lemma DiffsPartition(current: set<Id>, selected: seq<Id>)
    ensures ToRemove(current, selected) !! Ids(ToAdd(current, selected))
    ensures ToRemove(current, selected) + Ids(ToAdd(current, selected)) + (current * Ids(selected))
         == current + Ids(selected)
  {
  }

  /** `toggleResident`: an id that is present is removed (every occurrence), an absent one
      is appended; no other id changes membership. */
  function Toggle(selected: seq<Id>, id: Id): (r: seq<Id>)
    ensures id in r <==> id !in selected
    ensures forall x :: x != id ==> (x in r <==> x in selected)
    ensures id in selected ==> Seqs.IsSubsequence(r, selected)
    ensures id in selected ==> multiset(r) == multiset(selected)[id := 0]
    ensures id !in selected ==> r == selected + [id]
  {
    if id in selected then
      var keep := (x: Id) => x != id;
      Seqs.FilterCounts(selected, keep);
      assert multiset(Seqs.Filter(selected, keep)) == multiset(selected)[id := 0];
      Seqs.Filter(selected, keep)
    else selected + [id]
  }

  /** Toggling an absent id twice gives the selection back. */
  lemma ToggleTwiceAbsent(selected: seq<Id>, id: Id)
    requires id !in selected
    ensures Toggle(Toggle(selected, id), id) == selected
  {
    var t := selected + [id];
    Seqs.FilterAppend(selected, [id], x => x != id);
    Seqs.FilterKeepsAll(selected, x => x != id);
    assert Seqs.Filter([id], x => x != id) == [];
    assert Toggle(t, id) == Seqs.Filter(t, x => x != id);
  }

  /** Toggling keeps a selection free of duplicates. */
  lemma ToggleKeepsDistinct(selected: seq<Id>, id: Id)
    requires Seqs.NoDuplicates(selected)
    ensures Seqs.NoDuplicates(Toggle(selected, id))
  {
    if id in selected {
      SubsequenceKeepsDistinct(Toggle(selected, id), selected);
    }
  }

  lemma {:induction false} SubsequenceKeepsDistinct(a: seq<Id>, b: seq<Id>)
    requires Seqs.IsSubsequence(a, b) && Seqs.NoDuplicates(b)
    ensures Seqs.NoDuplicates(a)
    decreases |b|
  {
    if |a| > 0 && |b| > 0 {
      if a[0] == b[0] {
        SubsequenceKeepsDistinct(a[1..], b[1..]);
        SubsequenceElements(a[1..], b[1..]);
        assert forall j :: 0 < j < |a| ==> a[j] in b[1..];
      } else {
        SubsequenceKeepsDistinct(a, b[1..]);
      }
    }
  }

  lemma {:induction false} SubsequenceElements(a: seq<Id>, b: seq<Id>)
    requires Seqs.IsSubsequence(a, b)
    ensures forall x :: x in a ==> x in b
    decreases |b|
  {
    if |a| > 0 && |b| > 0 {
      if a[0] == b[0] {
        SubsequenceElements(a[1..], b[1..]);
        assert forall x :: x in a ==> x == a[0] || x in a[1..];
      } else {
        SubsequenceElements(a, b[1..]);
      }
    }
  }

  /** The selection the edit dialog starts from: the listed residents linked to `hid`,
      in list order. */
  function InitialSelection(available: seq<ResidentRow>, hid: Id): (r: seq<Id>)
    ensures forall x :: x in r <==> exists i :: 0 <= i < |available| && available[i].id == x && available[i].householdId == Some(hid)
  {
    if |available| == 0 then []
    else
      var rest := InitialSelection(available[1..], hid);
      assert forall i :: 1 <= i < |available| ==> available[i] == available[1..][i - 1];
      if available[0].householdId == Some(hid) then [available[0].id] + rest else rest
  }

  /** A listing of every row of a residents table, each under its own key. */
  predicate Lists(available: seq<ResidentRow>, residents: Table<ResidentRow>) {
    && (forall i :: 0 <= i < |available| ==> available[i].id in residents && residents[available[i].id] == available[i])
    && (forall id :: id in residents ==> exists i :: 0 <= i < |available| && available[i].id == id)
  }

  /** When the list the dialog loaded is the whole table, the initial selection is exactly
      the household's current membership. */
  lemma InitialSelectionIsMembership(available: seq<ResidentRow>, residents: Table<ResidentRow>, hid: Id)
    requires Lists(available, residents)
    ensures Ids(InitialSelection(available, hid)) == Members(residents, hid)
  {
  }

  // ---------------------------------------------------------------- edit flow

  /** `.update(link).in("id", ids)` on the residents table. */
  function RelinkAll(residents: Table<ResidentRow>, ids: set<Id>, link: Link): (r: Table<ResidentRow>)
    ensures r.Keys == residents.Keys
    ensures forall id :: id in residents && id in ids ==> r[id] == Relink(residents[id], link)
    ensures forall id :: id in residents && id !in ids ==> r[id] == residents[id]
  {
    UpdateWhereIdIn(residents, ids, row => Relink(row, link))
  }

  /** `.update(patch).eq("id", hid)` on the households table. */
  function WriteHousehold(households: Table<HouseholdRow>, hid: Id, p: HouseholdPatch): (r: Table<HouseholdRow>)
    ensures r.Keys == households.Keys
    ensures hid in households ==> r[hid] == ApplyPatch(households[hid], p)
    ensures forall id :: id in households && id != hid ==> r[id] == households[id]
  {
    UpdateWhereIdIn(households, {hid}, row => ApplyPatch(row, p))
  }

  /** The result of the membership part of an edit. */
  datatype Reconciliation = Reconciliation(residents: Table<ResidentRow>, calls: seq<Call>, status: Status)

  /** The membership part of an edit, once the current members are known: unlink the
      deselected members (one bulk update, skipped when there are none), then link the newly
      selected ones (likewise), stopping at the first refused update. Kept members get no write. */
  function Reconcile(residents: Table<ResidentRow>, hid: Id, houseNumber: string, selected: seq<Id>,
                     removal: Reply, addition: Reply): (r: Reconciliation)
    ensures r.residents.Keys == residents.Keys
    ensures r.status == Saved || r.status == Failed(UpdateFailed)
    ensures |r.calls| <= 2
  {
    var current := Members(residents, hid);
    var removed := ToRemove(current, selected);
    var calls1 := if removed == {} then [] else [UpdateResidents(removed, Unlinked)];
    if removed != {} && removal.Refused? then Reconciliation(residents, calls1, Failed(UpdateFailed))
    else
      var afterRemoval := RelinkAll(residents, removed, Unlinked);
      var added := Ids(ToAdd(current, selected));
      var link := Link(Some(hid), Some(houseNumber));
      var calls2 := calls1 + (if added == {} then [] else [UpdateResidents(added, link)]);
      if added != {} && addition.Refused? then Reconciliation(afterRemoval, calls2, Failed(UpdateFailed))
      else Reconciliation(RelinkAll(afterRemoval, added, link), calls2, Saved)
  }

  /** What reconciling does: the calls it issues (an empty diff is skipped), when it
      succeeds, and the resulting row of every resident. Deselected members are unlinked as
      soon as the removal is accepted; newly selected residents are linked only when the whole
      reconciliation succeeds; everyone else, kept members included, is untouched. */
  lemma ReconcileOutcome(residents: Table<ResidentRow>, hid: Id, houseNumber: string, selected: seq<Id>,
                         removal: Reply, addition: Reply)
    ensures var r := Reconcile(residents, hid, houseNumber, selected, removal, addition);
      var current := Members(residents, hid);
      var removed := ToRemove(current, selected);
      var added := Ids(ToAdd(current, selected));
      var link := Link(Some(hid), Some(houseNumber));
      && r.calls == (if removed == {} then [] else [UpdateResidents(removed, Unlinked)])
                    + (if (removed != {} && removal.Refused?) || added == {} then [] else [UpdateResidents(added, link)])
      && (r.status == Saved <==> (removed == {} || removal.Accepted?) && (added == {} || addition.Accepted?))
      && (forall id :: id in residents ==>
            r.residents[id] ==
              if id in removed && removal.Accepted? then Relink(residents[id], Unlinked)
              else if id in added && r.status == Saved then Relink(residents[id], link)
              else residents[id])
  {
  }

  /** The backend's answer to each call of an edit submission. */
  datatype EditReplies = EditReplies(householdUpdate: Reply, memberSelect: Reply, removal: Reply, addition: Reply)

  /** `EditHouseholdDialog.handleSubmit` for household `hid`: validate, update the household
      row, read the current members, then reconcile. */
  function EditHousehold(db: Db, hid: Id, form: HouseholdForm, selected: seq<Id>, replies: EditReplies): (r: Submission)
    ensures r.status.Invalid? <==> IsBlank(form.houseNumber)
    ensures r.status.Invalid? ==> r.db == db && r.calls == []
    ensures !r.status.Invalid? ==> 1 <= |r.calls| <= 4 && r.calls[0] == UpdateHousehold(hid, PatchOf(form))
    ensures r.db.residents.Keys == db.residents.Keys && r.db.households.Keys == db.households.Keys
    ensures replies.householdUpdate.Accepted? && !r.status.Invalid? ==>
      r.db.households == WriteHousehold(db.households, hid, PatchOf(form))
    ensures replies.householdUpdate.Refused? || replies.memberSelect.Refused? ==> r.db.residents == db.residents
    ensures replies.householdUpdate.Accepted? && replies.memberSelect.Accepted? && !r.status.Invalid? ==>
      var rec := Reconcile(db.residents, hid, PatchOf(form).houseNumber, selected, replies.removal, replies.addition);
      && r.calls == [UpdateHousehold(hid, PatchOf(form)), SelectMembers(hid)] + rec.calls
      && r.db.residents == rec.residents
      && r.status == rec.status
  {
    if IsBlank(form.houseNumber) then Submission(db, [], Invalid(HouseNumberRequired))
    else if replies.householdUpdate.Refused? then
      Submission(db, [UpdateHousehold(hid, PatchOf(form))], Failed(UpdateFailed))
    else if replies.memberSelect.Refused? then
      Submission(db.(households := WriteHousehold(db.households, hid, PatchOf(form))),
                 [UpdateHousehold(hid, PatchOf(form)), SelectMembers(hid)], Failed(UpdateFailed))
    else
      var rec := Reconcile(db.residents, hid, PatchOf(form).houseNumber, selected, replies.removal, replies.addition);
      Submission(Db(WriteHousehold(db.households, hid, PatchOf(form)), rec.residents),
                 [UpdateHousehold(hid, PatchOf(form)), SelectMembers(hid)] + rec.calls, rec.status)
  }

  /** All four calls were accepted (those that are issued at all). */
  predicate AllAccepted(replies: EditReplies) {
    replies.householdUpdate.Accepted? && replies.memberSelect.Accepted?
    && replies.removal.Accepted? && replies.addition.Accepted?
  }

  /** A valid edit writes the household row with the trimmed house number and the nullable
      address fields, and nothing else about the household table changes. */
  lemma EditWritesHouseholdRow(db: Db, hid: Id, form: HouseholdForm, selected: seq<Id>, replies: EditReplies)
    requires !IsBlank(form.houseNumber) && replies.householdUpdate.Accepted?
    ensures var r := EditHousehold(db, hid, form, selected, replies);
      && (hid in db.households ==> r.db.households[hid] == ApplyPatch(db.households[hid], PatchOf(form)))
      && (forall id :: id in db.households && id != hid ==> r.db.households[id] == db.households[id])
  {
  }

  /** The guarantee of a successful edit, resident by resident: newly selected residents are
      linked to `hid` with the trimmed house number (even when linked elsewhere before),
      deselected members are unlinked with both columns cleared, and every other resident
      (kept members included) is left exactly as it was. */
  lemma EditMembershipOutcome(db: Db, hid: Id, form: HouseholdForm, selected: seq<Id>, replies: EditReplies, id: Id)
    requires !IsBlank(form.houseNumber) && AllAccepted(replies)
    requires id in db.residents
    ensures var r := EditHousehold(db, hid, form, selected, replies);
      var current := Members(db.residents, hid);
      var before := db.residents[id];
      && r.status == Saved
      && (id in selected && id !in current ==> r.db.residents[id] == Relink(before, Link(Some(hid), Some(Trim(form.houseNumber)))))
      && (id !in selected && id in current ==> r.db.residents[id] == Relink(before, Unlinked))
      && (id in selected && id in current ==> r.db.residents[id] == before)
      && (id !in selected && id !in current ==> r.db.residents[id] == before)
  {
    ReconcileOutcome(db.residents, hid, PatchOf(form).houseNumber, selected, replies.removal, replies.addition);
  }

  /** After a successful edit the household's members are exactly the selected residents
      that exist in the table. */
  lemma EditMembersAreSelection(db: Db, hid: Id, form: HouseholdForm, selected: seq<Id>, replies: EditReplies)
    requires !IsBlank(form.houseNumber) && AllAccepted(replies)
    ensures Members(EditHousehold(db, hid, form, selected, replies).db.residents, hid)
         == Ids(selected) * db.residents.Keys
  {
    var r := EditHousehold(db, hid, form, selected, replies);
    forall id | id in db.residents
      ensures id in Members(r.db.residents, hid) <==> id in selected
    {
      EditMembershipOutcome(db, hid, form, selected, replies, id);
    }
  }

  /** Submitting the current membership unchanged issues no resident update at all. */
  lemma EditUnchangedSelectionWritesNoResident(db: Db, hid: Id, form: HouseholdForm, selected: seq<Id>, replies: EditReplies)
    requires !IsBlank(form.houseNumber)
    requires replies.householdUpdate.Accepted? && replies.memberSelect.Accepted?
    requires Ids(selected) == Members(db.residents, hid)
    ensures var r := EditHousehold(db, hid, form, selected, replies);
      && r.status == Saved
      && r.calls == [UpdateHousehold(hid, PatchOf(form)), SelectMembers(hid)]
      && r.db.residents == db.residents
  {
    ReconcileOutcome(db.residents, hid, PatchOf(form).houseNumber, selected, replies.removal, replies.addition);
    var current := Members(db.residents, hid);
    assert ToRemove(current, selected) == {};
    assert Ids(ToAdd(current, selected)) == {};
  }

  /** A kept member gets no write: after a successful edit the household row carries the new
      trimmed house number while every member that stays selected keeps its old denormalised
      `house_number`, so the two disagree whenever the house number was changed. */
  lemma KeptMemberHouseNumberNotRefreshed(db: Db, hid: Id, form: HouseholdForm, selected: seq<Id>, replies: EditReplies, id: Id)
    requires !IsBlank(form.houseNumber) && AllAccepted(replies)
    requires hid in db.households
    requires id in db.residents && db.residents[id].householdId == Some(hid) && id in selected
    ensures var r := EditHousehold(db, hid, form, selected, replies);
      && r.db.households[hid].houseNumber == Trim(form.houseNumber)
      && r.db.residents[id].householdId == Some(hid)
      && r.db.residents[id].houseNumber == db.residents[id].houseNumber
  {
    assert id in Members(db.residents, hid);
    EditMembershipOutcome(db, hid, form, selected, replies, id);
  }

  /** Fail-fast: a refused household update stops before any other call and writes nothing. */
  lemma EditStopsAtHouseholdUpdate(db: Db, hid: Id, form: HouseholdForm, selected: seq<Id>, replies: EditReplies)
    requires !IsBlank(form.houseNumber) && replies.householdUpdate.Refused?
    ensures var r := EditHousehold(db, hid, form, selected, replies);
      r.status == Failed(UpdateFailed) && r.db == db && |r.calls| == 1
  {
  }

  /** Fail-fast: a refused member select keeps the household write and touches no resident. */
  lemma EditStopsAtMemberSelect(db: Db, hid: Id, form: HouseholdForm, selected: seq<Id>, replies: EditReplies)
    requires !IsBlank(form.houseNumber) && replies.householdUpdate.Accepted? && replies.memberSelect.Refused?
    ensures var r := EditHousehold(db, hid, form, selected, replies);
      && r.status == Failed(UpdateFailed)
      && r.calls == [UpdateHousehold(hid, PatchOf(form)), SelectMembers(hid)]
      && r.db.residents == db.residents
      && (hid in db.households ==> r.db.households[hid] == ApplyPatch(db.households[hid], PatchOf(form)))
  {
  }

  /** Fail-fast: a refused removal means the addition is never attempted; the household
      write stays and no resident changes. */
  lemma EditStopsAtRemoval(db: Db, hid: Id, form: HouseholdForm, selected: seq<Id>, replies: EditReplies)
    requires !IsBlank(form.houseNumber) && replies.householdUpdate.Accepted? && replies.memberSelect.Accepted?
    requires replies.removal.Refused?
    requires ToRemove(Members(db.residents, hid), selected) != {}
    ensures var r := EditHousehold(db, hid, form, selected, replies);
      && r.status == Failed(UpdateFailed)
      && |r.calls| == 3
      && r.calls[2] == UpdateResidents(ToRemove(Members(db.residents, hid), selected), Unlinked)
      && r.db.residents == db.residents
  {
    ReconcileOutcome(db.residents, hid, PatchOf(form).houseNumber, selected, replies.removal, replies.addition);
  }

  /** Fail-fast: a refused addition leaves the removals in place. */
  lemma EditStopsAtAddition(db: Db, hid: Id, form: HouseholdForm, selected: seq<Id>, replies: EditReplies, id: Id)
    requires !IsBlank(form.houseNumber) && replies.householdUpdate.Accepted? && replies.memberSelect.Accepted?
    requires replies.removal.Accepted? && replies.addition.Refused?
    requires Ids(ToAdd(Members(db.residents, hid), selected)) != {}
    requires id in db.residents
    ensures var r := EditHousehold(db, hid, form, selected, replies);
      var current := Members(db.residents, hid);
      && r.status == Failed(UpdateFailed)
      && r.calls[|r.calls| - 1] == UpdateResidents(Ids(ToAdd(current, selected)), Link(Some(hid), Some(Trim(form.houseNumber))))
      && (id in current && id !in selected ==> r.db.residents[id] == Relink(db.residents[id], Unlinked))
      && (!(id in current && id !in selected) ==> r.db.residents[id] == db.residents[id])
  {
    ReconcileOutcome(db.residents, hid, PatchOf(form).houseNumber, selected, replies.removal, replies.addition);
  }

  // ---------------------------------------------------------------- add flow

  /** The add dialog's state: the household fields and the selection. */
  datatype AddForm = AddForm(fields: HouseholdForm, selected: seq<Id>)

  const BlankAddForm: AddForm := AddForm(HouseholdForm("", "", "", false, false), [])

  /** The backend's answers: the insert returns the new row's id. */
  datatype AddReplies = AddReplies(insert: Result<Id>, assignment: Reply)

  datatype AddOutcome = AddOutcome(submission: Submission, form: AddForm, open: bool)

  /** `AddHouseholdDialog.handleSubmit`. The store assigns the new household's id, so an
      accepted insert names an id no household holds yet. */
  function AddHousehold(db: Db, form: AddForm, open: bool, replies: AddReplies): (r: AddOutcome)
    requires replies.insert.Ok? ==> replies.insert.value !in db.households
    ensures r.submission.status.Invalid? <==> IsBlank(form.fields.houseNumber)
    ensures r.submission.status.Invalid? ==> r.submission.db == db && r.submission.calls == []
    ensures r.submission.status == Saved ==> r.form == BlankAddForm && !r.open
    ensures r.submission.status != Saved ==> r.form == form && r.open == open
    ensures r.submission.db.residents.Keys == db.residents.Keys
  {
    var f := form.fields;
    if IsBlank(f.houseNumber) then AddOutcome(Submission(db, [], Invalid(HouseNumberRequired)), form, open)
    else
      var patch := PatchOf(f);
      var calls1 := [InsertHousehold(patch)];
      match replies.insert
      case Err(_) => AddOutcome(Submission(db, calls1, Failed(CreateFailed)), form, open)
      case Ok(newId) =>
        var db1 := db.(households := db.households[newId := NewHousehold(newId, patch)]);
        if |form.selected| == 0 then AddOutcome(Submission(db1, calls1, Saved), BlankAddForm, false)
        else
          var link := Link(Some(newId), Some(patch.houseNumber));
          var calls2 := calls1 + [UpdateResidents(Ids(form.selected), link)];
          if replies.assignment.Refused? then AddOutcome(Submission(db1, calls2, Failed(CreateFailed)), form, open)
          else
            var db2 := db1.(residents := RelinkAll(db1.residents, Ids(form.selected), link));
            AddOutcome(Submission(db2, calls2, Saved), BlankAddForm, false)
  }

  /** A valid add inserts one household row with the trimmed house number, `null` for a
      blank purok or street address, and the two utility flags as toggled. */
  lemma AddInsertsHousehold(db: Db, form: AddForm, open: bool, replies: AddReplies)
    requires replies.insert.Ok? ==> replies.insert.value !in db.households
    requires !IsBlank(form.fields.houseNumber) && replies.insert.Ok?
    ensures var r := AddHousehold(db, form, open, replies);
      var id := replies.insert.value;
      && r.submission.calls[0] == InsertHousehold(PatchOf(form.fields))
      && r.submission.db.households == db.households[id := NewHousehold(id, PatchOf(form.fields))]
  {
    var r := AddHousehold(db, form, open, replies);
    var households := db.households[replies.insert.value := NewHousehold(replies.insert.value, PatchOf(form.fields))];
    if |form.selected| == 0 || replies.assignment.Refused? {
      assert r.submission.db.households == households;
    } else {
      assert r.submission.db.households == households;
    }
  }

  /** A successful add links every selected resident to the new household with the trimmed
      house number, whatever household it was linked to before; everyone else is untouched. */
  lemma AddLinksSelection(db: Db, form: AddForm, open: bool, replies: AddReplies, id: Id)
    requires replies.insert.Ok? ==> replies.insert.value !in db.households
    requires !IsBlank(form.fields.houseNumber) && replies.insert.Ok? && replies.assignment.Accepted?
    requires id in db.residents
    ensures var r := AddHousehold(db, form, open, replies);
      && r.submission.status == Saved
      && (id in form.selected ==>
            r.submission.db.residents[id]
              == Relink(db.residents[id], Link(Some(replies.insert.value), Some(Trim(form.fields.houseNumber)))))
      && (id !in form.selected ==> r.submission.db.residents[id] == db.residents[id])
  {
  }

  /** An empty selection issues no resident update. */
  lemma AddEmptySelectionWritesNoResident(db: Db, form: AddForm, open: bool, replies: AddReplies)
    requires replies.insert.Ok? ==> replies.insert.value !in db.households
    requires !IsBlank(form.fields.houseNumber) && replies.insert.Ok? && form.selected == []
    ensures var r := AddHousehold(db, form, open, replies);
      r.submission.status == Saved && |r.submission.calls| == 1 && r.submission.db.residents == db.residents
  {
  }

  /** A refused resident update is reported as a failure, but the inserted household stays
      and the form keeps its contents. */
  lemma AddFailedAssignmentKeepsHousehold(db: Db, form: AddForm, open: bool, replies: AddReplies)
    requires replies.insert.Ok? ==> replies.insert.value !in db.households
    requires !IsBlank(form.fields.houseNumber) && replies.insert.Ok? && replies.assignment.Refused?
    requires form.selected != []
    ensures var r := AddHousehold(db, form, open, replies);
      && r.submission.status == Failed(CreateFailed)
      && replies.insert.value in r.submission.db.households
      && r.submission.db.residents == db.residents
      && r.form == form && r.open == open
  {
  }
}
