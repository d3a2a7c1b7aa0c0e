/** The Officials page: the name search, the displayed name, and the confirmed removal. */
module Officials {
  import opened Wrappers
  import opened Schema
  import opened Store
  import opened Text
  import opened Ui
  import Seqs

  /** One fetched official with the name columns of the resident holding the post. */
  datatype Listing = Listing(row: OfficialRow, firstName: string, middleName: Option<string>, lastName: string)

  /** The lower-cased `first middle last` the search runs on. */
  function SearchKey(l: Listing): (key: string)
    ensures |key| == |l.firstName| + |OrElse(l.middleName, "")| + |l.lastName| + 2
  {
    Lower(l.firstName + " " + OrElse(l.middleName, "") + " " + l.lastName)
  }

  /** The key is the three parts lower-cased, each separated by one space, so a null or empty
      middle name leaves two spaces between first and last name. */
  lemma SearchKeyParts(l: Listing)
    ensures SearchKey(l)[..|l.firstName|] == Lower(l.firstName)
    ensures SearchKey(l)[|l.firstName|] == ' '
    ensures SearchKey(l)[|l.firstName| + 1..|l.firstName| + 1 + |OrElse(l.middleName, "")|] == Lower(OrElse(l.middleName, ""))
    ensures SearchKey(l)[|l.firstName| + 1 + |OrElse(l.middleName, "")|] == ' '
    ensures SearchKey(l)[|l.firstName| + 2 + |OrElse(l.middleName, "")|..] == Lower(l.lastName)
    ensures OrElse(l.middleName, "") == "" ==> SearchKey(l)[|l.firstName| + 1] == ' '
  {
  }

  /** `filteredOfficials`' test: the query occurs in the search key or in the position. */
  predicate OfficialMatches(l: Listing, query: string) {
    Contains(SearchKey(l), Lower(query)) || Matches(l.row.position, query)
  }

  function OfficialQuery(query: string): Listing -> bool {
    (l: Listing) => OfficialMatches(l, query)
  }

  function FilterOfficials(officials: seq<Listing>, query: string): (r: seq<Listing>)
    ensures forall l :: l in r <==> l in officials && OfficialMatches(l, query)
    ensures Seqs.IsSubsequence(r, officials)
  {
    Seqs.Filter(officials, OfficialQuery(query))
  }

  /** An empty search keeps every official, in order. */
  lemma EmptyQueryKeepsOfficials(officials: seq<Listing>)
    ensures FilterOfficials(officials, "") == officials
  {
    forall l | l in officials
      ensures OfficialQuery("")(l)
    {
      MatchesEmptyQuery(l.row.position);
    }
    Seqs.FilterKeepsAll(officials, OfficialQuery(""));
  }

  /** The name cell: the middle name and its trailing space appear only when the middle name
      is present and non-empty. */
  function DisplayName(l: Listing): (shown: string)
    ensures l.middleName.None? || l.middleName.value == "" ==> shown == l.firstName + " " + l.lastName
    ensures l.middleName.Some? && l.middleName.value != "" ==>
      shown == l.firstName + " " + l.middleName.value + " " + l.lastName
  {
    l.firstName + " " + (if l.middleName.Some? && l.middleName.value != "" then l.middleName.value + " " else "") + l.lastName
  }

  /** With a middle name the search key is the displayed name lower-cased; without one the key
      has one character more: the displayed name with a second space after the first name. */
  lemma {:induction false} SearchKeyOfDisplayName(l: Listing)
    ensures l.middleName.Some? && l.middleName.value != "" ==> SearchKey(l) == Lower(DisplayName(l))
    ensures l.middleName.None? || l.middleName.value == "" ==>
      SearchKey(l) == Lower(l.firstName + " " + " " + l.lastName) && |SearchKey(l)| == |DisplayName(l)| + 1
  {
    var m := OrElse(l.middleName, "");
    var full := l.firstName + " " + m + " " + l.lastName;
    assert SearchKey(l) == Lower(full);
    if l.middleName.Some? && l.middleName.value != "" {
      assert DisplayName(l) == full;
    } else {
      assert full == l.firstName + " " + " " + l.lastName by {
        assert m == "";
      }
      assert |DisplayName(l)| + 1 == |full|;
    }
  }

  /** So searching for the name exactly as shown can miss an official without a middle name:
      "Ana Cruz" is not found in the key "ana  cruz". */
  lemma ShownNameMissesWithoutMiddleName(row: OfficialRow)
    ensures DisplayName(Listing(row, "Ana", None, "Cruz")) == "Ana Cruz"
    ensures !OfficialMatches(Listing(row, "Ana", None, "Cruz"), "Ana Cruz") || Matches(row.position, "Ana Cruz")
  {
    var l := Listing(row, "Ana", None, "Cruz");
    var key := SearchKey(l);
    var q := Lower("Ana Cruz");
    assert DisplayName(l) == "Ana Cruz";
    assert !Contains(key, q) by {
      assert key == "ana  cruz" by { SearchKeyParts(l); }
      assert q == "ana cruz";
      ContainsIffOccurs(key, q);
      forall i | 0 <= i && i + |q| <= |key|
        ensures !OccursAt(key, q, i)
      {
        if i == 0 {
          assert key[4] != q[4];
        } else {
          assert i == 1 && key[1] != q[0];
        }
      }
    }
  }

  /** What `handleDelete` leaves behind: the table, the pending selection, the toast, and
      whether the list is fetched again. */
  datatype DeleteOutcome = DeleteOutcome(table: Table<OfficialRow>, selected: Option<Id>, toast: Option<Toast>, refetch: bool)

  /** `handleDelete`: without a selected official nothing happens; otherwise one delete by id
      is issued and the selection is cleared whatever the answer. */
  function HandleDelete(t: Table<OfficialRow>, selected: Option<Id>, reply: Reply): (r: DeleteOutcome)
    ensures selected.None? ==> r == DeleteOutcome(t, None, None, false)
    ensures r.selected.None?
    ensures r.refetch <==> selected.Some? && reply.Accepted?
    ensures forall k :: k in r.table <==> k in t && !(r.refetch && k == selected.value)
    ensures forall k :: k in r.table ==> r.table[k] == t[k]
    ensures selected.Some? && reply.Accepted? ==> r.toast == Some(Success("Official removed successfully"))
    ensures selected.Some? && reply.Refused? ==> r.toast == Some(Error(OrElse(Some(reply.message), "Failed to remove official")))
  {
    match selected
    case None => DeleteOutcome(t, None, None, false)
    case Some(id) =>
      match reply
      case Accepted => DeleteOutcome(t - {id}, None, Some(Success("Official removed successfully")), true)
      case Refused(message) => DeleteOutcome(t, None, Some(Error(OrElse(Some(message), "Failed to remove official"))), false)
  }
}

/** The Add and Edit Official dialogs: `officialSchema`, the payloads, and the form loading. */
module OfficialForms {
  import opened Wrappers
  import opened Schema
  import opened Store
  import opened Text
  import opened Ui

  /** The statuses the schema accepts. */
  const Statuses: seq<string> := ["Active", "Inactive"]

  /** The fields both dialogs edit. */
  datatype Terms = Terms(position: string, termStart: string, termEnd: string, status: string)

  /** The Add dialog also picks the resident; the Edit dialog has no such field. */
  datatype AddForm = AddForm(residentId: Id, terms: Terms)

  /** `defaultValues` of the Add dialog, and what `form.reset()` returns to. */
  const AddDefaults: AddForm := AddForm("", Terms("", "", "", "Active"))

  /** zod's message for a value outside `z.enum(["Active", "Inactive"])`. */
  function NotAStatus(status: string): string {
    "Invalid enum value. Expected 'Active' | 'Inactive', received '" + status + "'"
  }

  /** The rules both schemas share, reported in schema order. */
  function TermErrors(t: Terms): (errors: seq<FieldError>)
    ensures errors == [] <==> 1 <= |t.position| <= 100 && t.termStart != "" && t.status in Statuses
    ensures FieldError("position", "Position is required") in errors <==> t.position == ""
    ensures FieldError("position", AtMost("100")) in errors <==> |t.position| > 100
    ensures FieldError("term_start", "Term start date is required") in errors <==> t.termStart == ""
    ensures FieldError("status", NotAStatus(t.status)) in errors <==> t.status !in Statuses
  {
    Rule(t.position == "", FieldError("position", "Position is required"))
    + Rule(|t.position| > 100, FieldError("position", AtMost("100")))
    + Rule(t.termStart == "", FieldError("term_start", "Term start date is required"))
    + Rule(t.status !in Statuses, FieldError("status", NotAStatus(t.status)))
  }

  /** The Add dialog's schema: a resident must be picked, then the shared rules. */
  function AddErrors(f: AddForm): (errors: seq<FieldError>)
    ensures errors == [] <==> f.residentId != "" && TermErrors(f.terms) == []
    ensures FieldError("resident_id", "Please select a resident") in errors <==> f.residentId == ""
  {
    Rule(f.residentId == "", FieldError("resident_id", "Please select a resident")) + TermErrors(f.terms)
  }

  /** The row the Add dialog inserts: exactly the five payload columns, an empty end of term
      stored as null; the store assigns `id`. */
  function Inserted(id: Id, f: AddForm): (row: OfficialRow)
    ensures row.id == id && row.residentId == f.residentId
    ensures row.position == f.terms.position && row.termStart == f.terms.termStart && row.status == f.terms.status
    ensures row.termEnd.None? <==> f.terms.termEnd == ""
    ensures row.termEnd.Some? ==> row.termEnd.value == f.terms.termEnd
  {
    OfficialRow(id, f.residentId, f.terms.position, f.terms.termStart, OrNull(f.terms.termEnd), f.terms.status)
  }

  /** The Edit dialog's update: the four edited columns change, `id` and `resident_id` are not
      in the payload. */
  function Revised(row: OfficialRow, t: Terms): (r: OfficialRow)
    ensures r.id == row.id && r.residentId == row.residentId
    ensures r.position == t.position && r.termStart == t.termStart && r.status == t.status
    ensures r.termEnd.None? <==> t.termEnd == ""
  {
    row.(position := t.position, termStart := t.termStart, termEnd := OrNull(t.termEnd), status := t.status)
  }

  /** The Edit dialog's `form.reset` on open: a null or empty end of term becomes "", an empty
      status becomes "Active". */
  function LoadTerms(row: OfficialRow): (t: Terms)
    ensures t.position == row.position && t.termStart == row.termStart
    ensures t.termEnd == "" <==> row.termEnd.None? || row.termEnd.value == ""
    ensures t.status != ""
    ensures row.status != "" ==> t.status == row.status
  {
    Terms(OrElse(Some(row.position), ""), OrElse(Some(row.termStart), ""), OrElse(row.termEnd, ""), OrElse(Some(row.status), "Active"))
  }

  /** Opening the dialog and saving without a change writes the row back as it was, unless the
      row held an empty end of term or an empty status. */
  lemma LoadThenSave(row: OfficialRow)
    requires row.status != "" && row.termEnd != Some("")
    ensures Revised(row, LoadTerms(row)) == row
  {
  }

  /** Saving terms and opening the dialog again shows the saved terms. */
  lemma SaveThenLoad(row: OfficialRow, t: Terms)
    requires TermErrors(t) == []
    ensures LoadTerms(Revised(row, t)) == t
  {
  }

  /** A row the Add dialog inserted opens in the Edit dialog with the terms that were entered. */
  lemma InsertedThenLoaded(id: Id, f: AddForm)
    requires AddErrors(f) == []
    ensures LoadTerms(Inserted(id, f)) == f.terms
  {
  }

  /** What a dialog submission leaves behind: the table, the form, whether the dialog is open,
      the toast, and whether the parent's `onSuccess` ran. */
  datatype AddOutcome = AddOutcome(table: Table<OfficialRow>, form: AddForm, open: bool, toast: Option<Toast>, notified: bool)

  /** The Add dialog's `onSubmit`: an invalid form issues no insert; success resets the form,
      closes the dialog and notifies the page; an error keeps both form and dialog. The store
      assigns the new row's id, so an accepted insert names an id the table does not hold. */
  function SubmitAdd(t: Table<OfficialRow>, f: AddForm, open: bool, insert: Result<Id>): (r: AddOutcome)
    requires insert.Ok? ==> insert.value !in t
    ensures AddErrors(f) != [] ==> r == AddOutcome(t, f, open, None, false)
    ensures r.notified <==> AddErrors(f) == [] && insert.Ok?
    ensures r.notified ==>
      r.table == t[insert.value := Inserted(insert.value, f)] && r.form == AddDefaults && !r.open
      && r.toast == Some(Success("Official added successfully"))
    ensures AddErrors(f) == [] && insert.Err? ==>
      r == AddOutcome(t, f, open, Some(Error(OrElse(Some(insert.message), "Failed to add official"))), false)
  {
    if AddErrors(f) != [] then AddOutcome(t, f, open, None, false)
    else match insert
      case Ok(id) => AddOutcome(t[id := Inserted(id, f)], AddDefaults, false, Some(Success("Official added successfully")), true)
      case Err(message) => AddOutcome(t, f, open, Some(Error(OrElse(Some(message), "Failed to add official"))), false)
  }

  datatype EditOutcome = EditOutcome(table: Table<OfficialRow>, open: bool, toast: Option<Toast>, notified: bool)

  /** The Edit dialog's `onSubmit`: one update by id; only success closes the dialog and
      notifies the page. */
  function SubmitEdit(tbl: Table<OfficialRow>, id: Id, t: Terms, open: bool, reply: Reply): (r: EditOutcome)
    ensures TermErrors(t) != [] ==> r == EditOutcome(tbl, open, None, false)
    ensures r.notified <==> TermErrors(t) == [] && reply.Accepted?
    ensures r.open == (open && !r.notified)
    ensures r.table.Keys == tbl.Keys
    ensures forall k :: k in tbl && (k != id || !r.notified) ==> r.table[k] == tbl[k]
    ensures r.notified && id in tbl ==> r.table[id] == Revised(tbl[id], t)
    ensures TermErrors(t) == [] && reply.Refused? ==>
      r.toast == Some(Error(OrElse(Some(reply.message), "Failed to update official")))
    ensures r.notified ==> r.toast == Some(Success("Official updated successfully"))
  {
    if TermErrors(t) != [] then EditOutcome(tbl, open, None, false)
    else match reply
      case Accepted =>
        EditOutcome(UpdateWhereIdIn(tbl, {id}, (row: OfficialRow) => Revised(row, t)), false, Some(Success("Official updated successfully")), true)
      case Refused(message) => EditOutcome(tbl, open, Some(Error(OrElse(Some(message), "Failed to update official"))), false)
  }

  /** An edit never changes who holds a post: every row keeps its resident. */
  lemma EditKeepsHolder(tbl: Table<OfficialRow>, id: Id, t: Terms, open: bool, reply: Reply)
    ensures forall k :: k in tbl ==> SubmitEdit(tbl, id, t, open, reply).table[k].residentId == tbl[k].residentId
  {
  }
}
