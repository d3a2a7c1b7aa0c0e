# Barangay records dashboard — a Dafny model of its record-keeping logic

The dashboard is a React front end over a Supabase (PostgREST) backend. It keeps a
barangay's residents, households, officials, certificates, documents, reports, ordinances,
user roles and settings. Most of it is UI. Under the form handlers and list pages sits a
thin layer of logic with rules of its own, and that layer is what this project models:

- **Household membership** (`membership.dfy`, `households_page.dfy`).
  - Editing a household computes which residents leave (`current − selected`) and which
    join (`selected − current`). It unlinks the former in one bulk update and links the
    latter in a second, stopping at the first failing call.
  - Adding a household inserts it, then bulk-links the selection.
  - The selection list is edited by a toggle.
  - The Households page groups residents by `household_id`.
- **Status cycles** (`status_cycle.dfy`, `reports.dfy`, `ordinances.dfy`).
  - Reports cycle through four statuses, with an optimistic update that is reverted on error.
  - Ordinances cycle through three statuses.
  - Both are instances of one ring model.
- **User roles and settings** (`user_roles.dfy`, `preferences.dfy`).
  - A role change deletes the current `(user, role)` row, then inserts the new one.
  - The user list joins profiles with roles.
  - The settings lookup has defaults and encodes switches as text.
- **Certificates and documents** (`certificates.dfy`, `documents.dfy`).
  - The certificate-type label formatter and the `CERT-year-NNNN` number generator.
  - Upload file naming.
  - Search filters, badges, archive toggling and delete ordering.
- **Forms** (`officials.dfy`, `residents.dfy`, `passwords.dfy`). The zod schemas, the
  payload normalisation (a blank optional string becomes `null`), the form loading of the
  edit dialogs, and the outcome of each submit.
- **Frame** (`layout.dfy`). The navigation table, the active-item test and the header title.
- **Shared pieces**.
  - `schema.dfy`: the generated row types and enums.
  - `store.dfy`: the backend as maps from id to row.
  - `text.dfy`: the JavaScript string operations used.
  - `seqs.dfy`: `filter`/`find`.
  - `wrappers.dfy` and `ui.dfy`: results, toasts, badge variants and field errors.

The backend's answer to every call is a parameter of the operation: `Reply` for writes and
`Result<Id>` for inserts. The clock, `Math.random`, the current year and zod's email check
are parameters too. Each operation is therefore a pure function from the state before, the
input and the answers to the state after. That state covers the tables, the form, whether
the dialog is open, the toast shown, and whether the page reloads.

## Model

| member | source | states |
|---|---|---|
| `Schema.ParseAppRole` | src/integrations/supabase/types.ts:543 | a string names an `app_role` exactly when it is one of the three constants, and parsing inverts the naming |
| `Schema.AppRoleConstantsMatchUnion` | src/integrations/supabase/types.ts:687 | the `app_role` constants list exactly the union's three members, in order |
| `Schema.AppRoleConstantsDistinct` | src/integrations/supabase/types.ts:687 | the `app_role` constants have no repeats |
| `Schema.ParseCertificateType` | src/integrations/supabase/types.ts:544-550 | a string is a `certificate_type` exactly when it is one of the six constants |
| `Schema.CertificateTypeConstantsMatchUnion` | src/integrations/supabase/types.ts:688-695 | the `certificate_type` constants list exactly the six union members, in order |
| `Schema.CertificateTypeConstantsDistinct` | src/integrations/supabase/types.ts:688-695 | the six certificate-type constants are pairwise distinct |
| `Schema.ParseDocumentCategory` | src/integrations/supabase/types.ts:551-559 | a string is a `document_category` exactly when it is one of the eight constants |
| `Schema.DocumentCategoryConstantsMatchUnion` | src/integrations/supabase/types.ts:696-705 | the `document_category` constants list exactly the eight union members, in order |
| `Schema.DocumentCategoryConstantsDistinct` | src/integrations/supabase/types.ts:696-705 | the eight category constants are pairwise distinct |
| `Store.UpdateWhereIdIn` | src/components/EditHouseholdDialog.tsx:133-136 | `.update(patch).in("id", ids)` patches exactly the listed existing rows and leaves every other row and the key set unchanged |
| `Store.UpdateWhere` | src/components/settings/SystemPreferences.tsx:45-48 | `.update(patch).eq(column, value)` patches exactly the rows satisfying the filter |
| `Store.DeleteWhere` | src/components/settings/EditUserRoleDialog.tsx:46-50 | a filtered delete removes exactly the matching rows and keeps the others' contents |
| `Text.Trim` | src/components/EditHouseholdDialog.tsx:90 | `trim()` gives a contiguous piece of the input, everything cut off before and after it is whitespace, neither end of the result is whitespace, and it is empty exactly when the input is blank |
| `Text.Lower` | src/pages/Households.tsx:97 | `toLowerCase()` keeps the length and lower-cases each character in place |
| `Text.Matches` | src/pages/Households.tsx:96-99 | a field matches a query exactly when the lower-cased query occurs at some position of the lower-cased field |
| `Text.Split` | src/pages/Certificates.tsx:80 | `split(sep)` gives at least one piece and no piece holds the separator |
| `Text.Join` | src/pages/Certificates.tsx:82 | `join(sep)` of no pieces is "", starts with the first piece, and puts the separator right after it when there are more |
| `Text.Capitalize` | src/pages/Certificates.tsx:81 | `charAt(0).toUpperCase() + slice(1)` keeps the length, upper-cases the first character and copies the rest |
| `Text.ContainsIffOccurs` | src/pages/Households.tsx:97 | `includes` holds exactly when the needle occurs at some position |
| `Text.MatchesEmptyQuery` | src/pages/Households.tsx:96-99 | the case-insensitive `includes` of every search accepts the empty query |
| `Text.JoinSplit` | src/pages/Certificates.tsx:79-82 | joining the pieces of `split(sep)` with `sep` gives the input back |
| `Text.OrNull` | src/components/AddOfficialDialog.tsx:83 | `s \|\| null` is null exactly for the empty string and the string itself otherwise |
| `Text.OrElse` | src/components/EditOfficialDialog.tsx:51-54 | `o \|\| d` falls back to `d` exactly for null and the empty string |
| `Text.NatToString` | src/components/certificates/GenerateCertificateDialog.tsx:93 | `toString()` of a natural number gives decimal digits that read back as the number |
| `Text.PadStart` | src/components/certificates/GenerateCertificateDialog.tsx:94 | `padStart(w, c)` keeps the input as a suffix and fills up to width `w` with `c` |
| `Seqs.Filter` | src/pages/Officials.tsx:112-117 | `filter` returns a subsequence of the input that holds a value exactly when the input holds it and it satisfies the predicate (how often is `Seqs.FilterCounts`) |
| `Seqs.FilterCounts` | src/pages/Officials.tsx:112-117 | `filter` keeps each satisfying value as often as it occurs and drops every other value |
| `Seqs.Find` | src/components/settings/SystemPreferences.tsx:65-67 | `find` is absent exactly when no element satisfies the predicate, and otherwise returns the first that does |
| `Membership.PatchOf` | src/components/EditHouseholdDialog.tsx:105-113 | the household update carries the trimmed house number, null for a blank purok or street address (trimmed text otherwise), and the two utility flags as set |
| `Membership.Members` | src/components/EditHouseholdDialog.tsx:119-126 | the current members are exactly the residents whose `household_id` is the household's id |
| `Membership.ToRemove` | src/components/EditHouseholdDialog.tsx:129-131 | `toRemove` is exactly the current members not selected |
| `Membership.ToAdd` | src/components/EditHouseholdDialog.tsx:142-144 | `toAdd` is exactly the selected ids that are not current members, in selection order |
| `Membership.DiffsPartition` | src/components/EditHouseholdDialog.tsx:126-144 | the two diffs are disjoint, and with the kept members they cover current members and selection exactly |
| `Membership.Toggle` | src/components/EditHouseholdDialog.tsx:176-182 | toggling flips the membership of exactly one id: removed everywhere when present, appended when absent, other ids keep their relative order and every copy of them |
| `Membership.ToggleTwiceAbsent` | src/components/AddHouseholdDialog.tsx:148-154 | toggling an absent id twice gives the list back |
| `Membership.ToggleKeepsDistinct` | src/components/AddHouseholdDialog.tsx:148-154 | toggling keeps a duplicate-free selection duplicate-free |
| `Membership.InitialSelection` | src/components/EditHouseholdDialog.tsx:73-76 | the dialog preselects exactly the listed residents whose `household_id` is this household |
| `Membership.InitialSelectionIsMembership` | src/components/EditHouseholdDialog.tsx:62-76 | when the list is the residents table, the preselection is the household's current membership |
| `Membership.Reconcile` | src/components/EditHouseholdDialog.tsx:126-155 | membership reconciliation issues at most two bulk updates, keeps the residents' key set, and either succeeds or reports "Failed to update household" |
| `Membership.ReconcileOutcome` | src/components/EditHouseholdDialog.tsx:128-155 | the exact calls (each skipped when its diff is empty, the addition skipped after a refused removal), when reconciliation succeeds, and every resident's resulting row |
| `Membership.EditHousehold` | src/components/EditHouseholdDialog.tsx:87-174 | a blank house number aborts before any call; otherwise the household update comes first, then the member read, then reconciliation, and a refusal stops the flow without undoing earlier writes |
| `Membership.EditWritesHouseholdRow` | src/components/EditHouseholdDialog.tsx:103-114 | an accepted household update rewrites only that household's row, with the normalised fields |
| `Membership.EditMembershipOutcome` | src/components/EditHouseholdDialog.tsx:128-155 | after a successful edit: added residents carry this household and the trimmed house number (even when linked elsewhere before), removed ones have both columns null, all others are unchanged |
| `Membership.EditMembersAreSelection` | src/components/EditHouseholdDialog.tsx:128-155 | after a successful edit the household's members are exactly the selected residents that exist |
| `Membership.EditUnchangedSelectionWritesNoResident` | src/components/EditHouseholdDialog.tsx:132-155 | when the selection equals the current members no resident update is issued at all |
| `Membership.KeptMemberHouseNumberNotRefreshed` | src/components/EditHouseholdDialog.tsx:129-155 | after an edit whose writes are accepted, every resident that stays a member keeps its old `house_number` while the household row takes the new trimmed one |
| `Membership.EditStopsAtHouseholdUpdate` | src/components/EditHouseholdDialog.tsx:116 | a refused household update ends the flow after one call with nothing changed |
| `Membership.EditStopsAtMemberSelect` | src/components/EditHouseholdDialog.tsx:119-124 | a failed member read ends the flow; the household write stays and no resident changes |
| `Membership.EditStopsAtRemoval` | src/components/EditHouseholdDialog.tsx:132-139 | a refused removal ends the flow before the addition; no resident changes |
| `Membership.EditStopsAtAddition` | src/components/EditHouseholdDialog.tsx:145-155 | a refused addition is reported as a failure, but the accepted removal is not undone |
| `Membership.AddHousehold` | src/components/AddHouseholdDialog.tsx:79-146 | a blank house number aborts with no insert; success resets the form and closes the dialog; any failure keeps both; the store's new id is one no household holds |
| `Membership.AddInsertsHousehold` | src/components/AddHouseholdDialog.tsx:96-103 | the inserted household has the trimmed house number, null for a blank purok or street, and the flags as toggled |
| `Membership.AddLinksSelection` | src/components/AddHouseholdDialog.tsx:110-118 | a successful add links every selected resident to the new household with the trimmed house number, and no one else |
| `Membership.AddEmptySelectionWritesNoResident` | src/components/AddHouseholdDialog.tsx:110 | an empty selection issues no resident update |
| `Membership.AddFailedAssignmentKeepsHousehold` | src/components/AddHouseholdDialog.tsx:107-120 | a refused assignment is reported as a failure while the inserted household remains |
| `HouseholdsPage.GroupKey` | src/pages/Households.tsx:69 | a resident is grouped exactly when its `household_id` is truthy, and then under that id |
| `HouseholdsPage.Group` | src/pages/Households.tsx:68-76 | no group is empty |
| `HouseholdsPage.GroupKeys` | src/pages/Households.tsx:68-76 | a key has a group exactly when some resident carries that household id |
| `HouseholdsPage.GroupIsFilter` | src/pages/Households.tsx:73 | each group is the input filtered by its key, so residents keep their input order |
| `HouseholdsPage.ResidentCount` | src/pages/Households.tsx:166 | the count shown is the group length, or 0 without a group |
| `HouseholdsPage.ResidentCountIsLinked` | src/pages/Households.tsx:166 | the count shown is the number of fetched residents linked to that household |
| `HouseholdsPage.FilterHouseholds` | src/pages/Households.tsx:96-99 | a household is kept exactly when the query occurs, case-insensitively, in its house number or its truthy purok; order is kept |
| `HouseholdsPage.EmptyQueryKeepsHouseholds` | src/pages/Households.tsx:96-99 | an empty query keeps every household, in order |
| `HouseholdsPage.FetchHouseholds` | src/pages/Households.tsx:45-90 | the list is the select's result; groups are recomputed only when households came back non-empty and the resident select succeeded |
| `HouseholdsPage.EmptyFetchKeepsGroups` | src/pages/Households.tsx:58 | zero households leave the previous residents map in place |
| `StatusCycle.Next` | src/pages/Reports.tsx:106-113 | the successor in a ring is a member of the ring, and an unknown status goes to the ring's start |
| `StatusCycle.NextAt` | src/pages/Reports.tsx:106-111 | the successor of the ring's i-th status is the next one around |
| `StatusCycle.TurnAt` | src/pages/Reports.tsx:106-111 | k successive steps from the i-th status reach the status k places ahead |
| `StatusCycle.FullTurn` | src/pages/Ordinances.tsx:58-62 | a full turn of successors returns a status to itself and no shorter turn does |
| `Reports.NextStatus` | src/pages/Reports.tsx:113 | the next report status is always one of the four, and "Pending" for any unknown status |
| `Reports.NextStatusFollowsRing` | src/pages/Reports.tsx:106-111 | the lookup table is the ring Pending → In Progress → Resolved → Closed → Pending |
| `Reports.FourClicksComeBack` | src/pages/Reports.tsx:106-111 | four clicks return a known status and fewer never do |
| `Reports.StatusVariant` | src/pages/Reports.tsx:154-168 | Pending is outline, In Progress secondary, Resolved default, Closed destructive, anything else default |
| `Reports.SetStatus` | src/pages/Reports.tsx:116-122 | the optimistic update changes only the status of reports with that id; every other report and field is unchanged and order is preserved |
| `Reports.SetStatusRevert` | src/pages/Reports.tsx:137-144 | setting a status and then setting the old one back restores the list |
| `Reports.StatusClick` | src/pages/Reports.tsx:105-152 | a click writes only that row's status; on success the list shows the next status, on failure the row's status is back to what it was |
| `Reports.RefusedClickRestoresList` | src/pages/Reports.tsx:137-144 | a refused click leaves the shown list exactly as before the click |
| `Reports.HandleDelete` | src/pages/Reports.tsx:82-103 | without a pending id nothing happens; otherwise only that report can disappear and the pending id is cleared on success and on failure |
| `Ordinances.NextStatus` | src/pages/Ordinances.tsx:64 | the next ordinance status is one of the three, and "Active" for any unknown status |
| `Ordinances.NextStatusFollowsRing` | src/pages/Ordinances.tsx:58-62 | the lookup table is the ring Active → Amended → Repealed → Active |
| `Ordinances.ThreeClicksComeBack` | src/pages/Ordinances.tsx:58-62 | three clicks return a known status and fewer never do |
| `Ordinances.StatusColor` | src/pages/Ordinances.tsx:88-99 | Active is default, Repealed destructive, Amended secondary, and anything else outline |
| `Ordinances.StatusClick` | src/pages/Ordinances.tsx:57-86 | a click writes only that row's status; no local list changes, and the cache is invalidated only on success |
| `Ordinances.HandleDelete` | src/pages/Ordinances.tsx:37-55 | a declined confirmation issues no delete; an accepted delete removes only that row |
| `UserRoles.InitialRole` | src/components/settings/EditUserRoleDialog.tsx:37 | the preselected role is the current role, or viewer without one |
| `UserRoles.Pairs` | src/integrations/supabase/types.ts:508-514 | the relation holds exactly the (user, role) pairs of the rows |
| `UserRoles.SaveRole` | src/components/settings/EditUserRoleDialog.tsx:41-75 | only the current (user, role) rows are deleted, and only when a current role exists; the new row is inserted regardless; other rows survive; the outcome depends on the insert alone |
| `UserRoles.SavePairs` | src/components/settings/EditUserRoleDialog.tsx:45-57 | after a save the pairs are the old ones minus the current pair (if its delete went through) plus the selected pair (if the insert did) |
| `UserRoles.SameRoleKeepsPairs` | src/components/settings/EditUserRoleDialog.tsx:45-57 | saving the role the user already has leaves the set of pairs unchanged |
| `UserRoles.RefusedInsertLosesRole` | src/components/settings/EditUserRoleDialog.tsx:45-66 | when the delete succeeds and the insert fails the user is left without the old role |
| `UserDirectory.RoleOf` | src/components/settings/UserManagement.tsx:58 | a user's role is that of the first role row with the user's id, or null |
| `UserDirectory.EntryOf` | src/components/settings/UserManagement.tsx:59-65 | an entry copies the profile's id, name and position, has the empty email and the user's first role |
| `UserDirectory.MapSet` | src/components/settings/UserManagement.tsx:54-59 | `Map.set` replaces the entry with the same id in place, or appends a new one |
| `UserDirectory.LoadUsers` | src/components/settings/UserManagement.tsx:41-71 | no profiles gives the empty list, and every email is "" |
| `UserDirectory.Join` | src/components/settings/UserManagement.tsx:56-69 | every entry comes from some profile, so users with a role but no profile do not appear |
| `UserDirectory.MapSetIds` | src/components/settings/UserManagement.tsx:59 | setting an existing id keeps the id list, and a new id is appended to it |
| `UserDirectory.JoinKeys` | src/components/settings/UserManagement.tsx:54-69 | the output has exactly one entry per distinct profile id |
| `UserDirectory.JoinDistinct` | src/components/settings/UserManagement.tsx:56-69 | with distinct profile ids the list is one entry per profile, in profile order |
| `UserDirectory.RoleIcon` | src/components/settings/UserManagement.tsx:73-84 | admin gets the shield-alert icon, staff the shield, viewer the eye, and any other role none |
| `UserDirectory.RoleBadge` | src/components/settings/UserManagement.tsx:86-100 | a falsy role shows "No Role" in outline; any other shows its name, admin in destructive, staff in default, viewer in secondary, and an unknown role in outline |
| `UserDirectory.JoinedRolesDisplay` | src/components/settings/UserManagement.tsx:58-100 | in the joined list a user gets an icon and a coloured badge exactly when a role row exists |
| `Preferences.GetSetting` | src/components/settings/SystemPreferences.tsx:65-67 | the setting for a key is the first row with that key, or none |
| `Preferences.ValueOf` | src/components/settings/SystemPreferences.tsx:65-67 | the value is that of the first row with the key, and null when no row has it |
| `Preferences.SwitchOn` | src/components/settings/SystemPreferences.tsx:93 | a switch is on exactly when the first row with its key holds the text "true" |
| `Preferences.BoolText` | src/components/settings/SystemPreferences.tsx:95 | a switch writes "true" when turned on and "false" when turned off |
| `Preferences.ValueOr` | src/components/settings/SystemPreferences.tsx:108 | a missing or empty value falls back to the default, and any other value is shown |
| `Preferences.DefaultsWhenUnset` | src/components/settings/SystemPreferences.tsx:108-168 | unset values show "MM/DD/YYYY", "10" and "365", and a missing switch setting is off |
| `Preferences.UpdateSetting` | src/components/settings/SystemPreferences.tsx:44-63 | an accepted update changes only `setting_value` of rows with that key, and only then are settings reloaded |
| `Preferences.LoadSettings` | src/components/settings/SystemPreferences.tsx:32-42 | a failed load keeps the settings shown |
| `Preferences.SwitchRoundTrip` | src/components/settings/SystemPreferences.tsx:93-95 | after toggling a switch and reloading, the switch is on exactly when it was turned on |
| `Certificates.CapWords` | src/pages/Certificates.tsx:81 | capitalising the pieces keeps their number |
| `Certificates.LabelScan` | src/pages/Certificates.tsx:78-83 | the reference scan has the input's length |
| `Certificates.LabelMatchesScan` | src/pages/Certificates.tsx:78-83 | split on "_", capitalise each piece, join with " " equals the character-by-character reference scan |
| `Certificates.LabelScanPointwise` | src/pages/Certificates.tsx:78-83 | the scan puts a space exactly where the input had "_" or a space, no "_" survives, and only a piece's first character can change |
| `Certificates.TypeLabel` | src/pages/Certificates.tsx:78-83 | the label has the type's length, a space exactly where the type has an underscore or a space, no underscore, and an upper-cased first letter |
| `Certificates.TypeLabelPointwise` | src/pages/Certificates.tsx:78-83 | the label has the input's length, as many spaces as underscores plus spaces, no underscore, an upper-cased first letter per piece, and everything else copied |
| `Certificates.FilterCertificates` | src/pages/Certificates.tsx:66-76 | a certificate is kept exactly when the query occurs in its number, its resident's "first last" ("" without a resident) or its raw type; order is kept |
| `Certificates.EmptyQueryKeepsCertificates` | src/pages/Certificates.tsx:66-76 | an empty query keeps all certificates, in order |
| `Certificates.StatusVariant` | src/pages/Certificates.tsx:85-96 | Active, Expired and Revoked have their variants, and anything else is outline |
| `Certificates.Block` | src/components/certificates/ViewCertificateDialog.tsx:84 | an optional block is shown exactly when its field is non-null and non-empty |
| `Certificates.ViewCertificate` | src/components/certificates/ViewCertificateDialog.tsx:56-123 | the preview uses the same label, "N/A" without a resident, and the signatory falling back to "BARANGAY CAPTAIN" when null or empty |
| `CertificateIssue.RandomSuffix` | src/components/certificates/GenerateCertificateDialog.tsx:92 | the random value is in [0, 9999] |
| `CertificateIssue.FourDigits` | src/components/certificates/GenerateCertificateDialog.tsx:94 | `padStart(4, "0")` of a value below 10000 is four digits that read back as the value |
| `CertificateIssue.CertificateNumber` | src/components/certificates/GenerateCertificateDialog.tsx:90-96 | the number is "CERT-" + year + "-" + exactly four digits that read back as the random value |
| `CertificateIssue.CertificateNumberInjective` | src/components/certificates/GenerateCertificateDialog.tsx:90-96 | two numbers are equal only for the same year and random value |
| `CertificateIssue.Validate` | src/components/certificates/GenerateCertificateDialog.tsx:35-42 | the form is valid exactly when type, resident, purpose and issuer are non-empty |
| `CertificateIssue.PayloadOf` | src/components/certificates/GenerateCertificateDialog.tsx:101-110 | the insert has status "Active", null for an empty valid-until, and the other fields as entered |
| `CertificateIssue.RowOf` | src/components/certificates/GenerateCertificateDialog.tsx:102 | the store accepts the row exactly when the type is a `certificate_type` member |
| `CertificateIssue.Submit` | src/components/certificates/GenerateCertificateDialog.tsx:98-129 | an invalid form changes nothing; a valid one succeeds exactly when the insert is accepted with a new id and a known type, inserting that one row, resetting the form and closing the dialog; every other valid case keeps table, form and dialog and shows "Failed to generate certificate" |
| `CertificateIssue.MayorsPermitAlwaysFails` | src/components/certificates/GenerateCertificateDialog.tsx:177 | the offered "mayors_permit" passes validation but is never stored |
| `DocumentUpload.Extension` | src/components/documents/UploadDocumentDialog.tsx:70 | the extension holds no "." and ends the original name |
| `DocumentUpload.ExtensionIsAfterLastDot` | src/components/documents/UploadDocumentDialog.tsx:70 | the extension is the text after the last "."; a name without "." is its own extension |
| `DocumentUpload.StoredName` | src/components/documents/UploadDocumentDialog.tsx:71 | the stored name starts with the timestamp and "-" and ends with "." + extension |
| `DocumentUpload.Validate` | src/components/documents/UploadDocumentDialog.tsx:35-41 | the form is valid exactly when title and category are non-empty and a file is chosen |
| `DocumentUpload.RowOf` | src/components/documents/UploadDocumentDialog.tsx:94-104 | `file_path` and `file_name` are both the generated name, and the store accepts only a known category |
| `DocumentUpload.Submit` | src/components/documents/UploadDocumentDialog.tsx:66-123 | a refused upload stops before any insert; after an accepted upload an accepted insert with a new id and a known category stores the row, resets and closes, and every other case keeps the file in storage, the table, the form and the dialog and shows "Failed to save document record" |
| `DocumentUpload.RefusedInsertKeepsFile` | src/components/documents/UploadDocumentDialog.tsx:94-113 | a refused insert leaves the uploaded file in storage |
| `DocumentsPage.FilterDocuments` | src/pages/Documents.tsx:153-162 | a document is kept exactly when the query occurs in its title, non-null description or number and the category filter is "all" or its category |
| `DocumentsPage.NoFilterKeepsDocuments` | src/pages/Documents.tsx:153-162 | an empty query with "all" keeps every document, in order |
| `DocumentsPage.CategoryFilterSelectsCategory` | src/pages/Documents.tsx:159-160 | a category filter keeps only documents of that category |
| `DocumentsPage.CategoryLabel` | src/pages/Documents.tsx:178 | the label is the category with its first character upper-cased |
| `DocumentsPage.CategoryVariant` | src/pages/Documents.tsx:164-177 | resolution and report are default, memorandum and correspondence secondary, financial destructive, and ordinance, legal and other outline |
| `DocumentsPage.Negated` | src/pages/Documents.tsx:135 | the written flag is the negation of the current one, null counting as false |
| `DocumentsPage.ToggleArchive` | src/pages/Documents.tsx:132-151 | an accepted toggle writes only that document's archived flag |
| `DocumentsPage.ToggleTwice` | src/pages/Documents.tsx:132-136 | toggling twice restores a set archived flag |
| `DocumentsPage.HandleDelete` | src/pages/Documents.tsx:99-130 | a declined confirmation does nothing; a storage error prevents the record delete; a refused record delete removes the file but leaves every record and shows the record error; only when both calls succeed does the record disappear, with the success toast and a reload |
| `DocumentsPage.RefusedRecordDeleteOrphansRecord` | src/pages/Documents.tsx:115-122 | a refused record delete after a removed file leaves a record whose file is gone |
| `DocumentsPage.FileSizeUnit` | src/pages/Documents.tsx:183-188 | null or 0 is "N/A"; below 1048576 bytes the KB branch, otherwise the MB branch |
| `Officials.SearchKey` | src/pages/Officials.tsx:113 | the key is as long as the three name parts plus two separating spaces |
| `Officials.SearchKeyParts` | src/pages/Officials.tsx:113 | the key is the lower-cased first name, a space, the lower-cased middle name ("" when null or empty), a space, and the lower-cased last name, so without a middle name two spaces follow the first name |
| `Officials.FilterOfficials` | src/pages/Officials.tsx:112-117 | an official is kept exactly when the lower-cased query occurs in the key or the lower-cased position; order is kept |
| `Officials.EmptyQueryKeepsOfficials` | src/pages/Officials.tsx:112-117 | an empty query keeps all officials, in order |
| `Officials.DisplayName` | src/pages/Officials.tsx:183-187 | the middle name and its space appear only when the middle name is truthy |
| `Officials.SearchKeyOfDisplayName` | src/pages/Officials.tsx:113 | with a middle name the key is the shown name lower-cased; without one it is one space longer |
| `Officials.ShownNameMissesWithoutMiddleName` | src/pages/Officials.tsx:113-116 | searching for "Ana Cruz" as shown does not find Ana Cruz without a middle name by her name |
| `Officials.HandleDelete` | src/pages/Officials.tsx:84-110 | without a selection nothing happens; otherwise only that official can disappear, and the selection is cleared after success or failure |
| `OfficialForms.TermErrors` | src/components/EditOfficialDialog.tsx:13-18 | valid exactly when the position has 1..100 characters, the term start is non-empty and the status is Active or Inactive |
| `OfficialForms.AddErrors` | src/components/AddOfficialDialog.tsx:14-20 | the add form also needs a resident |
| `OfficialForms.Inserted` | src/components/AddOfficialDialog.tsx:79-85 | the insert holds exactly resident, position, term start, term end (null when empty) and status |
| `OfficialForms.Revised` | src/components/EditOfficialDialog.tsx:62-72 | an edit writes position, term start, term end (null when empty) and status, never `id` or `resident_id` |
| `OfficialForms.LoadTerms` | src/components/EditOfficialDialog.tsx:48-57 | opening the dialog loads a null term end as "" and an empty status as "Active" |
| `OfficialForms.LoadThenSave` | src/components/EditOfficialDialog.tsx:48-72 | saving an unchanged form writes the row back as it was |
| `OfficialForms.SaveThenLoad` | src/components/EditOfficialDialog.tsx:48-72 | reopening after a save shows the saved terms |
| `OfficialForms.InsertedThenLoaded` | src/components/AddOfficialDialog.tsx:79-85 | an added official opens in the edit dialog with the terms entered |
| `OfficialForms.SubmitAdd` | src/components/AddOfficialDialog.tsx:76-108 | success inserts one row under the store's new id, resets the form to its defaults, closes the dialog and notifies the page; an error keeps form and dialog |
| `OfficialForms.SubmitEdit` | src/components/EditOfficialDialog.tsx:59-92 | one update by id; only success closes the dialog, shows "Official updated successfully" and notifies the page |
| `OfficialForms.EditKeepsHolder` | src/components/EditOfficialDialog.tsx:62-67 | an edit never changes who holds a post |
| `ResidentForms.GenderErrors` | src/components/EditResidentDialog.tsx:19 | gender must be exactly "Male" or "Female", with the required message when none is picked |
| `ResidentForms.EmailErrors` | src/components/EditResidentDialog.tsx:24 | the email is either "" or passes the email check |
| `ResidentForms.PersonErrors` | src/components/EditResidentDialog.tsx:15-24 | names 1..100 characters, middle name at most 100, date of birth non-empty, gender, phone at most 20, email |
| `ResidentForms.EditErrors` | src/components/EditResidentDialog.tsx:14-28 | the edit schema also caps house number and purok at 50 and street at 200 |
| `ResidentForms.AddErrors` | src/components/AddResidentDialog.tsx:15-30 | the add schema requires a house number, leaves purok and street uncapped, and caps the barangay ID number at 50 |
| `ResidentForms.HouseNumberRequiredOnlyOnAdd` | src/components/AddResidentDialog.tsx:21 | a blank house number passes the edit schema but not the add schema |
| `ResidentForms.Updated` | src/components/EditResidentDialog.tsx:90-109 | the update writes every edited column, blank optional strings as null, and never `household_id` |
| `ResidentForms.Inserted` | src/components/AddResidentDialog.tsx:66-83 | the insert has no `household_id`, so a new resident starts unassigned; blank optional strings are null |
| `ResidentForms.LoadForm` | src/components/EditResidentDialog.tsx:67-85 | opening the dialog loads null strings as "", an empty gender as unset and null flags as false |
| `ResidentForms.LoadThenSave` | src/components/EditResidentDialog.tsx:67-109 | saving an unchanged form writes a normalised row back as it was |
| `ResidentForms.SaveThenLoad` | src/components/EditResidentDialog.tsx:67-109 | every saved row is normalised and reopens with what was saved |
| `ResidentForms.InsertedThenLoaded` | src/components/AddResidentDialog.tsx:66-81 | an added resident opens in the edit dialog with what was entered |
| `ResidentForms.SubmitAdd` | src/components/AddResidentDialog.tsx:63-104 | success inserts one row under the store's new id, resets the form and closes the dialog; failure keeps the entered data |
| `ResidentForms.AddedResidentUnassigned` | src/components/AddResidentDialog.tsx:66-83 | a successfully added resident belongs to no household |
| `ResidentForms.SubmitEdit` | src/components/EditResidentDialog.tsx:87-130 | one update by id; only success closes the dialog, shows "Resident updated successfully" and notifies the page |
| `ResidentForms.EditKeepsHousehold` | src/components/EditResidentDialog.tsx:90-104 | editing a resident never changes any row's household link |
| `Passwords.Validate` | src/components/settings/ChangePasswordDialog.tsx:20-28 | a new password shorter than 6 is rejected on `newPassword`, and differing values are rejected on `confirmPassword` |
| `Passwords.ValidIff` | src/components/settings/ChangePasswordDialog.tsx:20-28 | the form is valid exactly when the length is at least 6 and the two values are equal |
| `Passwords.Submit` | src/components/settings/ChangePasswordDialog.tsx:46-69 | success sets the new password, resets the form and closes the dialog; an error shows the backend message and leaves it open |
| `Layout.NavigationWellFormed` | src/components/Layout.tsx:14-23 | the table has 8 entries with pairwise distinct hrefs and non-empty names |
| `Layout.AtMostOneActive` | src/components/Layout.tsx:44 | at most one item is active for any pathname |
| `Layout.HeaderTitle` | src/components/Layout.tsx:69 | the header title is never empty |
| `Layout.HeaderTitleNamesActiveItem` | src/components/Layout.tsx:69 | the header title is the active entry's name, else "Dashboard" |
| `Layout.NestedRouteHasNoActiveItem` | src/components/Layout.tsx:44 | matching is exact: a nested route activates nothing and is titled "Dashboard" |

## Left out

- Backend mechanics are not modelled: network calls, authentication, row-level security,
  generated timestamps, and the ordering clauses of selects. The lists that selects return
  are inputs.
- Ids are assigned by the store, so every insert reply is assumed to name an id the table
  does not hold yet. The add and submit operations take this as a precondition rather than
  modelling the key generator.
- Columns an insert leaves out take the table's default, which the generated types do not
  give. `ResidentForms.Inserted` stores null for `status`.
- The resident insert sends `barangay_id_number`, a column the generated row type does not
  have. Whether the backend accepts that insert is up to its reply; the model drops the value.
- Household coordinates (`latitude`, `longitude`) and the map widgets are left out. They are
  floating-point state handled by a third-party map library.
- The realtime channel of the Reports page is left out. Its only effect is a refetch.
- The react-query cache is reduced to a `refetch`/`reload` flag.
- The toasts' titles are left out; only the description and error/success kind are kept.
- Loading spinners are left out.
- zod's `.email()` check is the parameter `isEmail`. Its regular expression belongs to the
  library.
- Case mapping (`toLowerCase`/`toUpperCase`) covers ASCII letters only. JavaScript's full
  Unicode mapping is a library table.
- String lengths count characters, not UTF-16 code units.
- File sizes: only the choice between "N/A", kilobytes and megabytes is modelled. The
  `toFixed` text is floating-point formatting.
- Dates are opaque strings. `toLocaleDateString` and date-fns `format` are library
  formatting.
- Lookups in plain JavaScript objects (`statusCycle[s]`, `acc[id]`, `variants[s]`) are
  modelled as lookups in their own keys only. A status such as "constructor" would hit an
  inherited property in JavaScript, and the model does not reproduce that.
- Concurrency and atomicity of multi-step writes are left out. The code has none: every
  write is modelled as applied alone, in order.
- Static pages (Dashboard, Residents, Activities) and the forms that only use HTML
  `required` are left out. Those forms are Add/Edit Report, Add/Edit Ordinance, Add/Edit
  Activity, BarangayInfo and ProfileSettings.
- `Membership.EditHousehold`: the update payload's coordinates are not modelled, because
  coordinates are left out as above.
- `Passwords.Submit`: the account password stands for the auth service's state. Hashing and
  sessions belong to the auth service.
