/** The certificate list page and the certificate preview: the type label, the search, the
    status badge and the preview's fallbacks. */
module Certificates {
  import opened Wrappers
  import opened Schema
  import opened Text
  import opened Ui
  import Seqs

  /** Capitalise the first piece when `capFirst`, and every later piece. */
  function CapWords(parts: seq<string>, capFirst: bool): (r: seq<string>)
    ensures |r| == |parts|
  {
    if |parts| == 0 then []
    else [if capFirst then Capitalize(parts[0]) else parts[0]] + CapWords(parts[1..], true)
  }

  /** `getCertificateTypeLabel` (the list page and the preview define the same one):
      `type.split("_").map(w => w.charAt(0).toUpperCase() + w.slice(1)).join(" ")`. */
  function TypeLabel(t: string): (r: string)
    ensures |r| == |t|
    ensures forall i :: 0 <= i < |t| ==> (r[i] == ' ' <==> t[i] == '_' || t[i] == ' ') && r[i] != '_'
    ensures |t| > 0 && t[0] != '_' ==> r[0] == UpperChar(t[0])
  {
    var r := Join(CapWords(Split(t, '_'), true), ' ');
    assert r == LabelScan(t, true) by { LabelMatchesScan(t, true); }
    assert forall i :: 0 <= i < |t| ==> (r[i] == ' ' <==> t[i] == '_' || t[i] == ' ') && r[i] != '_' && (i == 0 && t[0] != '_' ==> r[0] == UpperChar(t[0])) by {
      forall i | 0 <= i < |t|
        ensures (r[i] == ' ' <==> t[i] == '_' || t[i] == ' ') && r[i] != '_' && (i == 0 && t[0] != '_' ==> r[0] == UpperChar(t[0]))
      {
        LabelScanPointwise(t, true, i);
      }
    }
    r
  }

  /** A one-pass reference: every `_` becomes a space, the character after the start or
      after an `_` is upper-cased, every other character is copied. */
  function LabelScan(t: string, atStart: bool): (r: string)
    ensures |r| == |t|
  {
    if |t| == 0 then ""
    else if t[0] == '_' then " " + LabelScan(t[1..], true)
    else [if atStart then UpperChar(t[0]) else t[0]] + LabelScan(t[1..], false)
  }

  lemma {:induction false} LabelMatchesScan(t: string, atStart: bool)
    ensures Join(CapWords(Split(t, '_'), atStart), ' ') == LabelScan(t, atStart)
  {
    if |t| > 0 {
      var rest := Split(t[1..], '_');
      if t[0] == '_' {
        LabelMatchesScan(t[1..], true);
        var tail := CapWords(rest, true);
        assert Split(t, '_') == [""] + rest;
        assert ([""] + rest)[1..] == rest;
        assert CapWords(Split(t, '_'), atStart) == [""] + tail;
        assert ([""] + tail)[1..] == tail;
      } else {
        LabelMatchesScan(t[1..], false);
        var first := rest[0];
        var c := if atStart then UpperChar(t[0]) else t[0];
        var words := [[t[0]] + first] + rest[1..];
        assert Split(t, '_') == words;
        assert words[1..] == rest[1..];
        assert (if atStart then Capitalize(words[0]) else words[0]) == [c] + first;
        var tail := CapWords(rest[1..], true);
        assert CapWords(Split(t, '_'), atStart) == [[c] + first] + tail;
        assert CapWords(rest, false) == [first] + tail;
        JoinConsFirst(c, first, tail, ' ');
      }
    }
  }

  /** The scan, character by character. */
  lemma {:induction false} LabelScanPointwise(t: string, atStart: bool, i: nat)
    requires i < |t|
    ensures LabelScan(t, atStart)[i] == ' ' <==> t[i] == '_' || t[i] == ' '
    ensures LabelScan(t, atStart)[i] != '_'
    ensures t[i] != '_' && ((i == 0 && atStart) || (i > 0 && t[i - 1] == '_')) ==> LabelScan(t, atStart)[i] == UpperChar(t[i])
    ensures t[i] != '_' && !((i == 0 && atStart) || (i > 0 && t[i - 1] == '_')) ==> LabelScan(t, atStart)[i] == t[i]
  {
    if i > 0 {
      LabelScanPointwise(t[1..], t[0] == '_', i - 1);
    }
  }

  /** The formatted label, character by character: it has the type's length, a space exactly
      where the type has an `_` (or a space), no `_` at all, the first character and every
      character after an `_` upper-cased, and every other character copied. */
  lemma TypeLabelPointwise(t: string, i: nat)
    requires i < |t|
    ensures |TypeLabel(t)| == |t|
    ensures TypeLabel(t)[i] == ' ' <==> t[i] == '_' || t[i] == ' '
    ensures TypeLabel(t)[i] != '_'
    ensures t[i] != '_' && (i == 0 || t[i - 1] == '_') ==> TypeLabel(t)[i] == UpperChar(t[i])
    ensures t[i] != '_' && i > 0 && t[i - 1] != '_' ==> TypeLabel(t)[i] == t[i]
  {
    LabelMatchesScan(t, true);
    LabelScanPointwise(t, true, i);
  }

  /** A listed certificate with the joined resident's first and last name. */
  datatype Listing = Listing(row: CertificateRow, resident: Option<(string, string)>)

  /** The lower-cased `"first last"`, or `""` without a resident. */
  function ResidentName(l: Listing): string {
    match l.resident
    case None => ""
    case Some((first, last)) => Lower(first + " " + last)
  }

  /** `filteredCertificates`: the lower-cased query occurs in the number, in the resident's
      name, or in the raw snake_case type. */
  predicate CertificateMatches(l: Listing, query: string) {
    || Matches(l.row.certificateNumber, query)
    || Contains(ResidentName(l), Lower(query))
    || Matches(CertificateTypeName(l.row.certificateType), query)
  }

  function CertificateQuery(query: string): Listing -> bool {
    (l: Listing) => CertificateMatches(l, query)
  }

  function FilterCertificates(certs: seq<Listing>, query: string): (r: seq<Listing>)
    ensures forall l :: l in r <==> l in certs && CertificateMatches(l, query)
    ensures Seqs.IsSubsequence(r, certs)
  {
    Seqs.Filter(certs, CertificateQuery(query))
  }

  /** An empty search keeps every certificate, in order. */
  lemma EmptyQueryKeepsCertificates(certs: seq<Listing>)
    ensures FilterCertificates(certs, "") == certs
  {
    forall l | l in certs
      ensures CertificateQuery("")(l)
    {
      MatchesEmptyQuery(l.row.certificateNumber);
    }
    Seqs.FilterKeepsAll(certs, CertificateQuery(""));
  }

  /** `getStatusBadge`. */
  function StatusVariant(status: string): (v: Variant)
    ensures v == Outline <==> status !in {"Active", "Expired", "Revoked"}
    ensures status == "Active" <==> v == Default
    ensures status == "Expired" <==> v == Secondary
    ensures status == "Revoked" <==> v == Destructive
  {
    match status
    case "Active" => Default
    case "Expired" => Secondary
    case "Revoked" => Destructive
    case _ => Outline
  }

  /** What the certificate preview shows (dates are formatted by a library and left as the
      stored text). */
  datatype Preview = Preview(
    number: string,
    title: string,
    certifiedName: string,
    purpose: Option<string>,
    validUntil: Option<string>,
    signatory: string,
    note: Option<string>)

  /** A block guarded by `field && …` appears only for a non-empty value. */
  function Block(field: Option<string>): (r: Option<string>)
    ensures r.Some? <==> field.Some? && field.value != ""
    ensures r.Some? ==> r == field
  {
    if field.Some? && field.value != "" then field else None
  }

  /** The preview dialog's content. */
  function ViewCertificate(l: Listing): (p: Preview)
    ensures p.number == l.row.certificateNumber
    ensures p.title == TypeLabel(CertificateTypeName(l.row.certificateType))
    ensures l.resident.None? ==> p.certifiedName == "N/A"
    ensures l.resident.Some? ==> p.certifiedName == l.resident.value.0 + " " + l.resident.value.1
    ensures p.signatory == "BARANGAY CAPTAIN" <==> l.row.issuedBy in {None, Some(""), Some("BARANGAY CAPTAIN")}
    ensures p.signatory != "BARANGAY CAPTAIN" ==> l.row.issuedBy == Some(p.signatory)
    ensures p.purpose == Block(l.row.purpose) && p.validUntil == Block(l.row.validUntil) && p.note == Block(l.row.notes)
  {
    var signatory := OrElse(l.row.issuedBy, "BARANGAY CAPTAIN");
    assert signatory == "BARANGAY CAPTAIN" <==> l.row.issuedBy in {None, Some(""), Some("BARANGAY CAPTAIN")} by {
      if l.row.issuedBy.Some? && l.row.issuedBy.value != "" {
        assert signatory == l.row.issuedBy.value;
      } else {
        assert signatory == "BARANGAY CAPTAIN";
      }
    }
    Preview(
      l.row.certificateNumber,
      TypeLabel(CertificateTypeName(l.row.certificateType)),
      match l.resident
      case None => "N/A"
      case Some((first, last)) => first + " " + last,
      Block(l.row.purpose),
      Block(l.row.validUntil),
      signatory,
      Block(l.row.notes))
  }
}

/** Issuing a certificate (`GenerateCertificateDialog`): the form schema, the generated
    number, and the insert. */
module CertificateIssue {
  import opened Wrappers
  import opened Schema
  import opened Store
  import opened Text
  import opened Ui

  /** `Math.floor(u * 10000)` for the value `u` of `Math.random()`, which lies in [0, 1). */
  function RandomSuffix(u: real): (n: nat)
    requires 0.0 <= u < 1.0
    ensures n < 10000
  {
    var x := u * 10000.0;
    assert x < 10000.0;
    x.Floor
  }

  /** A suffix below 10000, padded with zeros to width 4, is four digits that read back as the
      suffix. */
  lemma FourDigits(suffix: nat)
    requires suffix < 10000
    ensures var padded := PadStart(NatToString(suffix), 4, '0');
      && |padded| == 4
      && (forall i :: 0 <= i < 4 ==> IsDigit(padded[i]))
      && DigitsValue(padded) == suffix
  {
    var s := NatToString(suffix);
    assert Pow10(4) == 10000 by {
      assert Pow10(2) == 100;
    }
    NatToStringWidth(suffix, 4);
    var padded := PadStart(s, 4, '0');
    assert padded == Repeat('0', 4 - |s|) + s;
    LeadingZeros(Repeat('0', 4 - |s|), s);
  }

  /** `CERT-${year}-${suffix.toString().padStart(4, "0")}`. */
  function CertificateNumber(year: nat, suffix: nat): (r: string)
    requires suffix < 10000
    ensures |r| >= 11
    ensures var digits := r[|r| - 4..];
      && r[..5] == "CERT-"
      && r[5..|r| - 5] == NatToString(year)
      && r[|r| - 5] == '-'
      && (forall i :: 0 <= i < 4 ==> IsDigit(digits[i]))
      && DigitsValue(digits) == suffix
  {
    var padded := PadStart(NatToString(suffix), 4, '0');
    FourDigits(suffix);
    var y := NatToString(year);
    var r := "CERT-" + y + "-" + padded;
    assert r[..5] == "CERT-";
    assert r[5..|r| - 5] == y;
    assert r[|r| - 5] == '-';
    assert r[|r| - 4..] == padded;
    r
  }

  /** Different (year, suffix) pairs give different numbers: the number can be read back. */
  lemma CertificateNumberInjective(y1: nat, n1: nat, y2: nat, n2: nat)
    requires n1 < 10000 && n2 < 10000
    requires CertificateNumber(y1, n1) == CertificateNumber(y2, n2)
    ensures y1 == y2 && n1 == n2
  {
    var r := CertificateNumber(y1, n1);
    assert NatToString(y1) == r[5..|r| - 5] == NatToString(y2);
  }

  /** The form, as strings (the optional fields default to ""). */
  datatype CertificateForm = CertificateForm(
    certificateType: string,
    residentId: string,
    purpose: string,
    issuedBy: string,
    validUntil: string,
    notes: string)

  const BlankForm: CertificateForm := CertificateForm("", "", "", "", "", "")

  /** `certificateSchema`: the four required fields, reported in schema order. */
  function Validate(f: CertificateForm): (errors: seq<FieldError>)
    ensures errors == [] <==> f.certificateType != "" && f.residentId != "" && f.purpose != "" && f.issuedBy != ""
    ensures FieldError("certificate_type", "Certificate type is required") in errors <==> f.certificateType == ""
    ensures FieldError("resident_id", "Resident is required") in errors <==> f.residentId == ""
  {
    Rule(f.certificateType == "", FieldError("certificate_type", "Certificate type is required"))
    + Rule(f.residentId == "", FieldError("resident_id", "Resident is required"))
    + Rule(f.purpose == "", FieldError("purpose", "Purpose is required"))
    + Rule(f.issuedBy == "", FieldError("issued_by", "Issued by is required"))
  }

  /** The types the dialog offers; `mayors_permit` is not a `certificate_type` member. */
  const OfferedTypes: seq<string> :=
    ["certificate_of_indigency", "certificate_of_residency", "business_permit", "barangay_clearance", "mayors_permit"]

  /** The insert payload of `onSubmit`. */
  datatype Payload = Payload(
    certificateType: string,
    residentId: Id,
    certificateNumber: string,
    purpose: string,
    issuedBy: string,
    validUntil: Option<string>,
    notes: string,
    status: string)

  function PayloadOf(f: CertificateForm, number: string): (p: Payload)
    ensures p.status == "Active"
    ensures p.validUntil.None? <==> f.validUntil == ""
    ensures p.validUntil.Some? ==> p.validUntil.value == f.validUntil
    ensures p.notes == f.notes && p.purpose == f.purpose && p.issuedBy == f.issuedBy
    ensures p.certificateType == f.certificateType && p.residentId == f.residentId && p.certificateNumber == number
  {
    Payload(f.certificateType, f.residentId, number, f.purpose, f.issuedBy, OrNull(f.validUntil), f.notes, "Active")
  }

  /** The row the store keeps for an accepted payload; the store refuses a type outside the
      `certificate_type` enum. */
  function RowOf(id: Id, p: Payload): (r: Option<CertificateRow>)
    ensures r.Some? <==> p.certificateType in CertificateTypeConstants
  {
    match ParseCertificateType(p.certificateType)
    case None => None
    case Some(t) =>
      Some(CertificateRow(id, p.certificateNumber, t, Some(p.residentId), Some(p.purpose), Some(p.issuedBy),
                          p.validUntil, Some(p.notes), p.status))
  }

  datatype Outcome = Outcome(table: Table<CertificateRow>, form: CertificateForm, open: bool, toast: Option<Toast>)

  /** Submitting the dialog: an invalid form issues no insert and keeps the dialog as it is;
      otherwise one row is inserted with a fresh number, the form is reset and the dialog
      closed on success, and both kept on error. The store assigns the new row's id, so an
      accepted insert names an id the table does not hold yet. */
  function Submit(t: Table<CertificateRow>, f: CertificateForm, open: bool, year: nat, u: real, insert: Result<Id>): (r: Outcome)
    requires 0.0 <= u < 1.0
    requires insert.Ok? ==> insert.value !in t
    ensures Validate(f) != [] ==> r == Outcome(t, f, open, None)
    ensures Validate(f) == [] && insert.Ok? && RowOf(insert.value, PayloadOf(f, CertificateNumber(year, RandomSuffix(u)))).Some? ==>
      r.toast == Some(Success("Certificate generated successfully"))
    ensures Validate(f) == [] && !(insert.Ok? && RowOf(insert.value, PayloadOf(f, CertificateNumber(year, RandomSuffix(u)))).Some?) ==>
      r == Outcome(t, f, open, Some(Error("Failed to generate certificate")))
    ensures r.toast == Some(Success("Certificate generated successfully")) ==>
      && insert.Ok?
      && RowOf(insert.value, PayloadOf(f, CertificateNumber(year, RandomSuffix(u)))).Some?
      && r.table == t[insert.value := RowOf(insert.value, PayloadOf(f, CertificateNumber(year, RandomSuffix(u)))).value]
      && r.form == BlankForm && !r.open
    ensures r.toast == Some(Error("Failed to generate certificate")) ==> r.table == t && r.form == f && r.open == open
    ensures Validate(f) == [] ==> r.toast.Some?
  {
    if Validate(f) != [] then Outcome(t, f, open, None)
    else
      var p := PayloadOf(f, CertificateNumber(year, RandomSuffix(u)));
      match insert
      case Err(_) => Outcome(t, f, open, Some(Error("Failed to generate certificate")))
      case Ok(id) =>
        match RowOf(id, p)
        case None => Outcome(t, f, open, Some(Error("Failed to generate certificate")))
        case Some(row) => Outcome(t[id := row], BlankForm, false, Some(Success("Certificate generated successfully")))
  }

  /** "Mayor's Permit" is offered and passes the schema, but the store refuses its type, so
      issuing it always fails and leaves the table unchanged. */
  lemma MayorsPermitAlwaysFails(t: Table<CertificateRow>, f: CertificateForm, open: bool, year: nat, u: real, insert: Result<Id>)
    requires 0.0 <= u < 1.0
    requires insert.Ok? ==> insert.value !in t
    requires f.certificateType == "mayors_permit" && f.residentId != "" && f.purpose != "" && f.issuedBy != ""
    ensures "mayors_permit" in OfferedTypes && Validate(f) == []
    ensures Submit(t, f, open, year, u, insert) == Outcome(t, f, open, Some(Error("Failed to generate certificate")))
  {
    assert ParseCertificateType("mayors_permit").None?;
  }
}
