/** The row shapes and enumerations of the generated database types.
    Nullable columns are `Option`s; `created_at`/`updated_at` are maintained by the
    backend and are not modelled. */
module Schema {
  import opened Wrappers
  import Seqs

  /** Row identifiers are opaque strings (UUIDs in the backend). */
  type Id = string

  // ---------------------------------------------------------------- enumerations

  datatype AppRole = Admin | Staff | Viewer

  /** The `app_role` union members, in declaration order. */
  const AllAppRoles: seq<AppRole> := [Admin, Staff, Viewer]

  /** The runtime `Constants` list for `app_role`. */
  const AppRoleConstants: seq<string> := ["admin", "staff", "viewer"]

  function AppRoleName(r: AppRole): string {
    match r
    case Admin => "admin"
    case Staff => "staff"
    case Viewer => "viewer"
  }

  /** The enum member a string denotes, if any. */
  function ParseAppRole(s: string): (r: Option<AppRole>)
    ensures r.Some? <==> s in AppRoleConstants
    ensures r.Some? ==> AppRoleName(r.value) == s
  {
    if s == "admin" then Some(Admin)
    else if s == "staff" then Some(Staff)
    else if s == "viewer" then Some(Viewer)
    else None
  }

  /** The constants list names exactly the union members, once each, in the same order. */
  lemma AppRoleConstantsMatchUnion()
    ensures |AppRoleConstants| == |AllAppRoles|
    ensures forall i :: 0 <= i < |AllAppRoles| ==> AppRoleConstants[i] == AppRoleName(AllAppRoles[i])
    ensures forall r: AppRole :: r in AllAppRoles
    ensures forall r: AppRole :: ParseAppRole(AppRoleName(r)) == Some(r)
  {
    forall r: AppRole ensures r in AllAppRoles {
      match r
      case Admin => assert AllAppRoles[0] == r;
      case Staff => assert AllAppRoles[1] == r;
      case Viewer => assert AllAppRoles[2] == r;
    }
  }

  /** No member is listed twice. */
  lemma AppRoleConstantsDistinct()
    ensures Seqs.NoDuplicates(AppRoleConstants)
  {
    AppRoleConstantsMatchUnion();
    forall i, j | 0 <= i < j < |AppRoleConstants|
      ensures AppRoleConstants[i] != AppRoleConstants[j]
    {
      assert ParseAppRole(AppRoleConstants[i]) == Some(AllAppRoles[i]);
      assert ParseAppRole(AppRoleConstants[j]) == Some(AllAppRoles[j]);
    }
  }

  datatype CertificateType =
    | BarangayClearance
    | CertificateOfResidency
    | CertificateOfIndigency
    | BusinessPermit
    | GoodMoral
    | FirstTimeJobSeeker

  const AllCertificateTypes: seq<CertificateType> :=
    [BarangayClearance, CertificateOfResidency, CertificateOfIndigency, BusinessPermit, GoodMoral, FirstTimeJobSeeker]

  const CertificateTypeConstants: seq<string> :=
    ["barangay_clearance", "certificate_of_residency", "certificate_of_indigency",
     "business_permit", "good_moral", "first_time_job_seeker"]

  function CertificateTypeName(t: CertificateType): string {
    match t
    case BarangayClearance => "barangay_clearance"
    case CertificateOfResidency => "certificate_of_residency"
    case CertificateOfIndigency => "certificate_of_indigency"
    case BusinessPermit => "business_permit"
    case GoodMoral => "good_moral"
    case FirstTimeJobSeeker => "first_time_job_seeker"
  }

  function ParseCertificateType(s: string): (r: Option<CertificateType>)
    ensures r.Some? <==> s in CertificateTypeConstants
    ensures r.Some? ==> CertificateTypeName(r.value) == s
  {
    if s == "barangay_clearance" then Some(BarangayClearance)
    else if s == "certificate_of_residency" then Some(CertificateOfResidency)
    else if s == "certificate_of_indigency" then Some(CertificateOfIndigency)
    else if s == "business_permit" then Some(BusinessPermit)
    else if s == "good_moral" then Some(GoodMoral)
    else if s == "first_time_job_seeker" then Some(FirstTimeJobSeeker)
    else None
  }

  lemma CertificateTypeConstantsMatchUnion()
    ensures |CertificateTypeConstants| == |AllCertificateTypes| == 6
    ensures forall i :: 0 <= i < |AllCertificateTypes| ==> CertificateTypeConstants[i] == CertificateTypeName(AllCertificateTypes[i])
    ensures forall t: CertificateType :: t in AllCertificateTypes
    ensures forall t: CertificateType :: ParseCertificateType(CertificateTypeName(t)) == Some(t)
  {
    forall t: CertificateType ensures t in AllCertificateTypes {
      match t
      case BarangayClearance => assert AllCertificateTypes[0] == t;
      case CertificateOfResidency => assert AllCertificateTypes[1] == t;
      case CertificateOfIndigency => assert AllCertificateTypes[2] == t;
      case BusinessPermit => assert AllCertificateTypes[3] == t;
      case GoodMoral => assert AllCertificateTypes[4] == t;
      case FirstTimeJobSeeker => assert AllCertificateTypes[5] == t;
    }
  }

  /** No member is listed twice. */
  lemma CertificateTypeConstantsDistinct()
    ensures Seqs.NoDuplicates(CertificateTypeConstants)
  {
    CertificateTypeConstantsMatchUnion();
    forall i, j | 0 <= i < j < |CertificateTypeConstants|
      ensures CertificateTypeConstants[i] != CertificateTypeConstants[j]
    {
      assert ParseCertificateType(CertificateTypeConstants[i]) == Some(AllCertificateTypes[i]);
      assert ParseCertificateType(CertificateTypeConstants[j]) == Some(AllCertificateTypes[j]);
    }
  }

  datatype DocumentCategory =
    | Resolution
    | Memorandum
    | Ordinance
    | Report
    | Financial
    | Legal
    | Correspondence
    | Other

  const AllDocumentCategories: seq<DocumentCategory> :=
    [Resolution, Memorandum, Ordinance, Report, Financial, Legal, Correspondence, Other]

  const DocumentCategoryConstants: seq<string> :=
    ["resolution", "memorandum", "ordinance", "report", "financial", "legal", "correspondence", "other"]

  function DocumentCategoryName(c: DocumentCategory): string {
    match c
    case Resolution => "resolution"
    case Memorandum => "memorandum"
    case Ordinance => "ordinance"
    case Report => "report"
    case Financial => "financial"
    case Legal => "legal"
    case Correspondence => "correspondence"
    case Other => "other"
  }

  function ParseDocumentCategory(s: string): (r: Option<DocumentCategory>)
    ensures r.Some? <==> s in DocumentCategoryConstants
    ensures r.Some? ==> DocumentCategoryName(r.value) == s
  {
    if s == "resolution" then Some(Resolution)
    else if s == "memorandum" then Some(Memorandum)
    else if s == "ordinance" then Some(Ordinance)
    else if s == "report" then Some(Report)
    else if s == "financial" then Some(Financial)
    else if s == "legal" then Some(Legal)
    else if s == "correspondence" then Some(Correspondence)
    else if s == "other" then Some(Other)
    else None
  }

  lemma DocumentCategoryConstantsMatchUnion()
    ensures |DocumentCategoryConstants| == |AllDocumentCategories| == 8
    ensures forall i :: 0 <= i < |AllDocumentCategories| ==> DocumentCategoryConstants[i] == DocumentCategoryName(AllDocumentCategories[i])
    ensures forall c: DocumentCategory :: c in AllDocumentCategories
    ensures forall c: DocumentCategory :: ParseDocumentCategory(DocumentCategoryName(c)) == Some(c)
  {
    forall c: DocumentCategory ensures c in AllDocumentCategories {
      match c
      case Resolution => assert AllDocumentCategories[0] == c;
      case Memorandum => assert AllDocumentCategories[1] == c;
      case Ordinance => assert AllDocumentCategories[2] == c;
      case Report => assert AllDocumentCategories[3] == c;
      case Financial => assert AllDocumentCategories[4] == c;
      case Legal => assert AllDocumentCategories[5] == c;
      case Correspondence => assert AllDocumentCategories[6] == c;
      case Other => assert AllDocumentCategories[7] == c;
    }
  }

  /** No member is listed twice. */
  lemma DocumentCategoryConstantsDistinct()
    ensures Seqs.NoDuplicates(DocumentCategoryConstants)
  {
    DocumentCategoryConstantsMatchUnion();
    forall i, j | 0 <= i < j < |DocumentCategoryConstants|
      ensures DocumentCategoryConstants[i] != DocumentCategoryConstants[j]
    {
      assert ParseDocumentCategory(DocumentCategoryConstants[i]) == Some(AllDocumentCategories[i]);
      assert ParseDocumentCategory(DocumentCategoryConstants[j]) == Some(AllDocumentCategories[j]);
    }
  }

  // ---------------------------------------------------------------- rows

  /** `households`: the house number is required, the utility flags are nullable,
      and there are no coordinate columns. */
  datatype HouseholdRow = HouseholdRow(
    id: Id,
    houseNumber: string,
    purok: Option<string>,
    streetAddress: Option<string>,
    hasElectricity: Option<bool>,
    hasWater: Option<bool>,
    headOfHouseholdId: Option<Id>)

  /** `residents`: the household link and its denormalised house number are both nullable;
      there is no `barangay_id_number` column. */
  datatype ResidentRow = ResidentRow(
    id: Id,
    firstName: string,
    middleName: Option<string>,
    lastName: string,
    dateOfBirth: string,
    gender: string,
    houseNumber: Option<string>,
    householdId: Option<Id>,
    purok: Option<string>,
    streetAddress: Option<string>,
    phoneNumber: Option<string>,
    email: Option<string>,
    isSeniorCitizen: Option<bool>,
    isPwd: Option<bool>,
    isIndigenous: Option<bool>,
    status: Option<string>)

  /** `officials`: an official always references a resident. */
  datatype OfficialRow = OfficialRow(
    id: Id,
    residentId: Id,
    position: string,
    termStart: string,
    termEnd: Option<string>,
    status: string)

  /** `certificates`: the resident reference is nullable. */
  datatype CertificateRow = CertificateRow(
    id: Id,
    certificateNumber: string,
    certificateType: CertificateType,
    residentId: Option<Id>,
    purpose: Option<string>,
    issuedBy: Option<string>,
    validUntil: Option<string>,
    notes: Option<string>,
    status: string)

  datatype DocumentRow = DocumentRow(
    id: Id,
    title: string,
    description: Option<string>,
    category: DocumentCategory,
    documentNumber: Option<string>,
    fileName: string,
    filePath: string,
    fileSize: Option<int>,
    fileType: Option<string>,
    isArchived: Option<bool>,
    uploadedBy: Option<Id>)

  datatype ReportRow = ReportRow(
    id: Id,
    title: string,
    description: Option<string>,
    location: Option<string>,
    priority: string,
    reportType: string,
    reportedBy: Option<string>,
    reportedDate: string,
    status: string)

  datatype OrdinanceRow = OrdinanceRow(
    id: Id,
    ordinanceNumber: string,
    title: string,
    description: Option<string>,
    content: Option<string>,
    dateEnacted: string,
    status: string)

  datatype ProfileRow = ProfileRow(
    id: Id,
    fullName: Option<string>,
    position: Option<string>,
    phoneNumber: Option<string>,
    avatarUrl: Option<string>)

  datatype UserRoleRow = UserRoleRow(id: Id, userId: Id, role: AppRole)

  datatype SettingRow = SettingRow(
    id: Id,
    settingKey: string,
    settingValue: Option<string>,
    settingType: string,
    description: Option<string>)
}
