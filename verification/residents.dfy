/** The Add and Edit Resident dialogs: `residentSchema` in its two versions, the payload
    normalisation, and the form loading. The email check of zod is the parameter `isEmail`. */
module ResidentForms {
  import opened Wrappers
  import opened Schema
  import opened Store
  import opened Text
  import opened Ui

  /** The fields both dialogs edit. `gender` is `undefined` until one is picked. */
  datatype ResidentForm = ResidentForm(
    firstName: string,
    middleName: string,
    lastName: string,
    dateOfBirth: string,
    gender: Option<string>,
    houseNumber: string,
    purok: string,
    streetAddress: string,
    phoneNumber: string,
    email: string,
    isSeniorCitizen: bool,
    isPwd: bool,
    isIndigenous: bool)

  /** The Add dialog also asks for a barangay ID number. */
  datatype AddForm = AddForm(resident: ResidentForm, barangayIdNumber: string)

  /** `defaultValues`: empty strings, no gender, every flag off. */
  const BlankResident: ResidentForm := ResidentForm("", "", "", "", None, "", "", "", "", "", false, false, false)

  const AddDefaults: AddForm := AddForm(BlankResident, "")

  /** `z.enum(["Male", "Female"], { required_error })`: the required message for a missing value,
      zod's enum message for any other. */
  function GenderErrors(gender: Option<string>): (errors: seq<FieldError>)
    ensures errors == [] <==> gender == Some("Male") || gender == Some("Female")
    ensures FieldError("gender", "Please select a gender") in errors <==> gender.None?
  {
    match gender
    case None => [FieldError("gender", "Please select a gender")]
    case Some(g) =>
      Rule(g != "Male" && g != "Female", FieldError("gender", "Invalid enum value. Expected 'Male' | 'Female', received '" + g + "'"))
  }

  /** `z.string().email("Invalid email").optional().or(z.literal(""))`. */
  function EmailErrors(email: string, isEmail: string -> bool): (errors: seq<FieldError>)
    ensures errors == [] <==> email == "" || isEmail(email)
    ensures forall e :: e in errors ==> e == FieldError("email", "Invalid email")
  {
    Rule(email != "" && !isEmail(email), FieldError("email", "Invalid email"))
  }

  /** What both schemas demand of names, date of birth, gender, phone and email. */
  predicate PersonValid(f: ResidentForm, isEmail: string -> bool) {
    && 1 <= |f.firstName| <= 100 && |f.middleName| <= 100 && 1 <= |f.lastName| <= 100
    && f.dateOfBirth != "" && (f.gender == Some("Male") || f.gender == Some("Female"))
    && |f.phoneNumber| <= 20 && (f.email == "" || isEmail(f.email))
  }

  /** The rules of both schemas for names, date of birth, gender, phone and email. */
  function PersonErrors(f: ResidentForm, isEmail: string -> bool): (errors: seq<FieldError>)
    ensures errors == [] <==> PersonValid(f, isEmail)
  {
    Rule(f.firstName == "", FieldError("first_name", "First name is required"))
    + Rule(|f.firstName| > 100, FieldError("first_name", AtMost("100")))
    + Rule(|f.middleName| > 100, FieldError("middle_name", AtMost("100")))
    + Rule(f.lastName == "", FieldError("last_name", "Last name is required"))
    + Rule(|f.lastName| > 100, FieldError("last_name", AtMost("100")))
    + Rule(f.dateOfBirth == "", FieldError("date_of_birth", "Date of birth is required"))
    + GenderErrors(f.gender)
    + Rule(|f.phoneNumber| > 20, FieldError("phone_number", AtMost("20")))
    + EmailErrors(f.email, isEmail)
  }

  /** The Edit dialog's schema: the address fields are optional but capped. */
  function EditErrors(f: ResidentForm, isEmail: string -> bool): (errors: seq<FieldError>)
    ensures errors == [] <==> PersonValid(f, isEmail) && |f.houseNumber| <= 50 && |f.purok| <= 50 && |f.streetAddress| <= 200
  {
    PersonErrors(f, isEmail)
    + Rule(|f.houseNumber| > 50, FieldError("house_number", AtMost("50")))
    + Rule(|f.purok| > 50, FieldError("purok", AtMost("50")))
    + Rule(|f.streetAddress| > 200, FieldError("street_address", AtMost("200")))
  }

  /** The Add dialog's schema: a house number is required, purok and street are uncapped, and
      the barangay ID number is capped at 50. */
  function AddErrors(f: AddForm, isEmail: string -> bool): (errors: seq<FieldError>)
    ensures errors == [] <==> PersonValid(f.resident, isEmail) && f.resident.houseNumber != "" && |f.barangayIdNumber| <= 50
  {
    PersonErrors(f.resident, isEmail)
    + Rule(f.resident.houseNumber == "", FieldError("house_number", "House number is required"))
    + Rule(|f.barangayIdNumber| > 50, FieldError("barangay_id_number", AtMost("50")))
  }

  /** A blank house number passes the Edit schema but not the Add schema. */
  lemma HouseNumberRequiredOnlyOnAdd(f: ResidentForm, isEmail: string -> bool)
    requires PersonValid(f, isEmail) && f.houseNumber == ""
    requires |f.purok| <= 50 && |f.streetAddress| <= 200
    ensures EditErrors(f, isEmail) == []
    ensures AddErrors(AddForm(f, ""), isEmail) != []
  {
    var a := AddForm(f, "");
    assert a.resident.houseNumber == "";
  }

  /** The Edit dialog's update applied to a row: every edited column is written, blank optional
      strings as null; `id`, `household_id` and `status` are not in the payload. */
  function Updated(row: ResidentRow, f: ResidentForm): (r: ResidentRow)
    requires f.gender.Some?
    ensures r.id == row.id && r.householdId == row.householdId && r.status == row.status
    ensures r.firstName == f.firstName && r.lastName == f.lastName && r.dateOfBirth == f.dateOfBirth
    ensures r.gender == f.gender.value
    ensures r.houseNumber.None? <==> f.houseNumber == ""
    ensures r.middleName.None? <==> f.middleName == ""
    ensures r.isSeniorCitizen.Some? && r.isPwd.Some? && r.isIndigenous.Some?
  {
    row.(firstName := f.firstName, middleName := OrNull(f.middleName), lastName := f.lastName,
         dateOfBirth := f.dateOfBirth, gender := f.gender.value, houseNumber := OrNull(f.houseNumber),
         purok := OrNull(f.purok), streetAddress := OrNull(f.streetAddress),
         phoneNumber := OrNull(f.phoneNumber), email := OrNull(f.email),
         isSeniorCitizen := Some(f.isSeniorCitizen), isPwd := Some(f.isPwd), isIndigenous := Some(f.isIndigenous))
  }

  /** The Add dialog's insert payload as the store keeps it. The payload's `barangay_id_number`
      has no column in the generated row type, so it is not stored; `household_id` is not in
      the payload, so a new resident starts unassigned, and `status` is left to the table. */
  function Inserted(id: Id, f: AddForm): (r: ResidentRow)
    requires f.resident.gender.Some?
    ensures r.id == id && r.householdId.None? && r.status.None?
    ensures r.firstName == f.resident.firstName && r.lastName == f.resident.lastName
    ensures r.houseNumber.None? <==> f.resident.houseNumber == ""
  {
    var p := f.resident;
    ResidentRow(id, p.firstName, OrNull(p.middleName), p.lastName, p.dateOfBirth, p.gender.value,
      OrNull(p.houseNumber), None, OrNull(p.purok), OrNull(p.streetAddress), OrNull(p.phoneNumber),
      OrNull(p.email), Some(p.isSeniorCitizen), Some(p.isPwd), Some(p.isIndigenous), None)
  }

  /** The Edit dialog's `form.reset` on open: null strings become "", an empty gender becomes
      `undefined`, null flags become `false`. */
  function LoadForm(row: ResidentRow): (f: ResidentForm)
    ensures f.firstName == row.firstName && f.lastName == row.lastName
    ensures f.middleName == "" <==> row.middleName.None? || row.middleName.value == ""
    ensures f.gender.None? <==> row.gender == ""
    ensures f.isPwd <==> row.isPwd == Some(true)
  {
    ResidentForm(
      OrElse(Some(row.firstName), ""), OrElse(row.middleName, ""), OrElse(Some(row.lastName), ""),
      OrElse(Some(row.dateOfBirth), ""), if row.gender == "" then None else Some(row.gender),
      OrElse(row.houseNumber, ""), OrElse(row.purok, ""), OrElse(row.streetAddress, ""),
      OrElse(row.phoneNumber, ""), OrElse(row.email, ""),
      row.isSeniorCitizen.GetOr(false), row.isPwd.GetOr(false), row.isIndigenous.GetOr(false))
  }

  /** No nullable string column holds "" and every flag is set: then nothing is lost by loading. */
  predicate Normalised(row: ResidentRow) {
    && row.middleName != Some("") && row.houseNumber != Some("") && row.purok != Some("")
    && row.streetAddress != Some("") && row.phoneNumber != Some("") && row.email != Some("")
    && row.isSeniorCitizen.Some? && row.isPwd.Some? && row.isIndigenous.Some?
  }

  /** Opening the dialog and saving without a change writes a normalised row back as it was. */
  lemma LoadThenSave(row: ResidentRow)
    requires Normalised(row) && row.gender != ""
    ensures Updated(row, LoadForm(row)) == row
  {
  }

  /** Every saved row is normalised, and opening it again shows what was saved. */
  lemma SaveThenLoad(row: ResidentRow, f: ResidentForm)
    requires f.gender.Some? && f.gender.value != ""
    ensures Normalised(Updated(row, f))
    ensures LoadForm(Updated(row, f)) == f
  {
  }

  /** A resident the Add dialog inserted opens in the Edit dialog with what was entered. */
  lemma InsertedThenLoaded(id: Id, f: AddForm, isEmail: string -> bool)
    requires AddErrors(f, isEmail) == []
    ensures Normalised(Inserted(id, f))
    ensures LoadForm(Inserted(id, f)) == f.resident
  {
    var p := f.resident;
    assert p.gender.Some? && p.gender.value != "" by { assert PersonValid(p, isEmail); }
    var row := Inserted(id, f);
    assert Normalised(row);
    assert LoadForm(row) == p;
  }

  /** What a dialog submission leaves behind: the table, the form, whether the dialog is open,
      the toast, and whether the parent's `onSuccess` ran. */
  datatype AddOutcome = AddOutcome(table: Table<ResidentRow>, form: AddForm, open: bool, toast: Option<Toast>, notified: bool)

  /** The Add dialog's `onSubmit`: an invalid form issues no insert; success resets the form
      and closes the dialog; failure keeps the entered data. The store assigns the new row's
      id, so an accepted insert names an id the table does not hold. */
  function SubmitAdd(t: Table<ResidentRow>, f: AddForm, open: bool, isEmail: string -> bool, insert: Result<Id>): (r: AddOutcome)
    requires insert.Ok? ==> insert.value !in t
    ensures AddErrors(f, isEmail) != [] ==> r == AddOutcome(t, f, open, None, false)
    ensures r.notified <==> AddErrors(f, isEmail) == [] && insert.Ok?
    ensures r.notified ==>
      && f.resident.gender.Some?
      && r.table == t[insert.value := Inserted(insert.value, f)] && r.form == AddDefaults && !r.open
      && r.toast == Some(Success("Resident added successfully"))
    ensures AddErrors(f, isEmail) == [] && insert.Err? ==>
      r == AddOutcome(t, f, open, Some(Error(OrElse(Some(insert.message), "Failed to add resident"))), false)
  {
    if AddErrors(f, isEmail) != [] then AddOutcome(t, f, open, None, false)
    else match insert
      case Ok(id) => AddOutcome(t[id := Inserted(id, f)], AddDefaults, false, Some(Success("Resident added successfully")), true)
      case Err(message) => AddOutcome(t, f, open, Some(Error(OrElse(Some(message), "Failed to add resident"))), false)
  }

  /** A successfully added resident belongs to no household. */
  lemma AddedResidentUnassigned(t: Table<ResidentRow>, f: AddForm, open: bool, isEmail: string -> bool, id: Id)
    requires AddErrors(f, isEmail) == [] && id !in t
    ensures SubmitAdd(t, f, open, isEmail, Ok(id)).table[id].householdId.None?
  {
  }

  datatype EditOutcome = EditOutcome(table: Table<ResidentRow>, open: bool, toast: Option<Toast>, notified: bool)

  /** The Edit dialog's `onSubmit`: one update by id; only success closes the dialog and
      notifies the page. */
  function SubmitEdit(t: Table<ResidentRow>, id: Id, f: ResidentForm, open: bool, isEmail: string -> bool, reply: Reply): (r: EditOutcome)
    ensures EditErrors(f, isEmail) != [] ==> r == EditOutcome(t, open, None, false)
    ensures r.notified <==> EditErrors(f, isEmail) == [] && reply.Accepted?
    ensures r.open == (open && !r.notified)
    ensures r.table.Keys == t.Keys
    ensures forall k :: k in t && (k != id || !r.notified) ==> r.table[k] == t[k]
    ensures r.notified && id in t ==> f.gender.Some? && r.table[id] == Updated(t[id], f)
    ensures EditErrors(f, isEmail) == [] && reply.Refused? ==>
      r.toast == Some(Error(OrElse(Some(reply.message), "Failed to update resident")))
    ensures r.notified ==> r.toast == Some(Success("Resident updated successfully"))
  {
    if EditErrors(f, isEmail) != [] then EditOutcome(t, open, None, false)
    else match reply
      case Accepted =>
        EditOutcome(if id in t then t[id := Updated(t[id], f)] else t, false, Some(Success("Resident updated successfully")), true)
      case Refused(message) => EditOutcome(t, open, Some(Error(OrElse(Some(message), "Failed to update resident"))), false)
  }

  /** Editing a resident never moves it between households, although its own house number
      can change: every row keeps its `household_id`. */
  lemma EditKeepsHousehold(t: Table<ResidentRow>, id: Id, f: ResidentForm, open: bool, isEmail: string -> bool, reply: Reply)
    ensures forall k :: k in t ==> SubmitEdit(t, id, f, open, isEmail, reply).table[k].householdId == t[k].householdId
  {
  }
}
