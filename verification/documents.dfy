/** Document upload (`UploadDocumentDialog`): the stored object name, the form schema, and
    the upload-then-insert flow. */
module DocumentUpload {
  import opened Wrappers
  import opened Schema
  import opened Store
  import opened Text
  import opened Ui

  /** `name.split(".").pop()`: the last piece after splitting on `.`. */
  function Extension(name: string): (ext: string)
    ensures '.' !in ext
    ensures EndsWith(name, ext)
  {
    var parts := Split(name, '.');
    JoinSplit(name, '.');
    JoinEndsWithLast(parts, '.');
    parts[|parts| - 1]
  }

  /** Splitting on a separator that occurs gives at least two pieces. */
  lemma {:induction false} SplitAtSeparator(s: string, sep: char)
    requires sep in s
    ensures |Split(s, sep)| >= 2
  {
    if s[0] != sep {
      SplitAtSeparator(s[1..], sep);
    }
  }

  /** A joined string of two or more pieces ends with the separator and the last piece. */
  lemma {:induction false} JoinEndsWithSeparatorLast(parts: seq<string>, sep: char)
    requires |parts| >= 2
    ensures EndsWith(Join(parts, sep), [sep] + parts[|parts| - 1])
  {
    var j := Join(parts[1..], sep);
    if |parts| == 2 {
      assert j == parts[1];
    } else {
      JoinEndsWithSeparatorLast(parts[1..], sep);
    }
    assert Join(parts, sep) == (parts[0] + [sep]) + j;
  }

  /** The extension is the text after the last `.`; a name without `.` is its own
      "extension". */
  lemma ExtensionIsAfterLastDot(name: string)
    ensures '.' in name ==> EndsWith(name, "." + Extension(name))
    ensures '.' !in name ==> Extension(name) == name
  {
    var parts := Split(name, '.');
    JoinSplit(name, '.');
    if '.' in name {
      SplitAtSeparator(name, '.');
      JoinEndsWithSeparatorLast(parts, '.');
    } else {
      NoSeparatorOnePiece(name, '.');
    }
  }

  lemma {:induction false} NoSeparatorOnePiece(s: string, sep: char)
    requires sep !in s
    ensures Split(s, sep) == [s]
  {
    if |s| > 0 {
      NoSeparatorOnePiece(s[1..], sep);
      assert s == [s[0]] + s[1..];
    }
  }

  /** `${Date.now()}-${token}.${ext}`, with the clock reading and the random token as
      parameters. */
  function StoredName(now: nat, token: string, original: string): (r: string)
    ensures EndsWith(r, "." + Extension(original))
    ensures StartsWith(r, NatToString(now) + "-")
  {
    var r := NatToString(now) + "-" + token + "." + Extension(original);
    assert r[|r| - |"." + Extension(original)|..] == "." + Extension(original);
    assert r[..|NatToString(now) + "-"|] == NatToString(now) + "-";
    r
  }

  /** A chosen file: its name, size in bytes and MIME type. */
  datatype FileInfo = FileInfo(name: string, size: nat, mimeType: string)

  datatype DocumentForm = DocumentForm(
    title: string,
    description: string,
    category: string,
    documentNumber: string,
    files: seq<FileInfo>)

  const BlankForm: DocumentForm := DocumentForm("", "", "", "", [])

  /** `documentSchema`: title and category non-empty, at least one file. */
  function Validate(f: DocumentForm): (errors: seq<FieldError>)
    ensures errors == [] <==> f.title != "" && f.category != "" && |f.files| > 0
    ensures FieldError("file", "File is required") in errors <==> |f.files| == 0
  {
    Rule(f.title == "", FieldError("title", "Title is required"))
    + Rule(f.category == "", FieldError("category", "Category is required"))
    + Rule(|f.files| == 0, FieldError("file", "File is required"))
  }

  /** The row the store keeps for the insert; the store refuses a category outside the
      `document_category` enum. */
  function RowOf(id: Id, f: DocumentForm, stored: string, user: Option<Id>): (r: Option<DocumentRow>)
    requires |f.files| > 0
    ensures r.Some? <==> f.category in DocumentCategoryConstants
    ensures r.Some? ==> r.value.fileName == stored && r.value.filePath == stored
    ensures r.Some? ==> r.value.fileSize == Some(f.files[0].size as int) && r.value.uploadedBy == user
    ensures r.Some? ==> r.value.description == Some(f.description) && r.value.documentNumber == Some(f.documentNumber)
  {
    match ParseDocumentCategory(f.category)
    case None => None
    case Some(c) =>
      Some(DocumentRow(id, f.title, Some(f.description), c, Some(f.documentNumber), stored, stored,
                       Some(f.files[0].size as int), Some(f.files[0].mimeType), None, user))
  }

  datatype UploadReplies = UploadReplies(upload: Reply, insert: Result<Id>)

  datatype Outcome = Outcome(storage: set<string>, table: Table<DocumentRow>, form: DocumentForm, open: bool, toast: Option<Toast>)

  /** `onSubmit`: upload the first file under a generated name, then insert the record;
      an upload error stops before the insert. The store assigns the record's id, so an
      accepted insert names an id the table does not hold yet. */
  function Submit(storage: set<string>, t: Table<DocumentRow>, f: DocumentForm, open: bool,
                  now: nat, token: string, user: Option<Id>, replies: UploadReplies): (r: Outcome)
    requires replies.insert.Ok? ==> replies.insert.value !in t
    ensures Validate(f) != [] ==> r == Outcome(storage, t, f, open, None)
    ensures (Validate(f) == [] && replies.upload.Accepted? && replies.insert.Ok?
             && RowOf(replies.insert.value, f, StoredName(now, token, f.files[0].name), user).Some?) ==>
      r.toast == Some(Success("Document uploaded successfully"))
    ensures (Validate(f) == [] && replies.upload.Accepted?
             && !(replies.insert.Ok? && RowOf(replies.insert.value, f, StoredName(now, token, f.files[0].name), user).Some?)) ==>
      r == Outcome(storage + {StoredName(now, token, f.files[0].name)}, t, f, open, Some(Error("Failed to save document record")))
    ensures Validate(f) == [] && replies.upload.Refused? ==>
      r == Outcome(storage, t, f, open, Some(Error("Failed to upload file")))
    ensures Validate(f) == [] && replies.upload.Accepted? ==>
      r.storage == storage + {StoredName(now, token, f.files[0].name)}
    ensures r.toast == Some(Success("Document uploaded successfully")) ==>
      && replies.insert.Ok?
      && RowOf(replies.insert.value, f, StoredName(now, token, f.files[0].name), user).Some?
      && r.table == t[replies.insert.value := RowOf(replies.insert.value, f, StoredName(now, token, f.files[0].name), user).value]
      && r.form == BlankForm && !r.open
    ensures r.toast == Some(Error("Failed to save document record")) ==> r.table == t && r.form == f && r.open == open
  {
    if Validate(f) != [] then Outcome(storage, t, f, open, None)
    else if replies.upload.Refused? then Outcome(storage, t, f, open, Some(Error("Failed to upload file")))
    else
      var stored := StoredName(now, token, f.files[0].name);
      var storage1 := storage + {stored};
      match replies.insert
      case Err(_) => Outcome(storage1, t, f, open, Some(Error("Failed to save document record")))
      case Ok(id) =>
        match RowOf(id, f, stored, user)
        case None => Outcome(storage1, t, f, open, Some(Error("Failed to save document record")))
        case Some(row) => Outcome(storage1, t[id := row], BlankForm, false, Some(Success("Document uploaded successfully")))
  }

  /** A refused insert after an accepted upload leaves the uploaded file in storage with no
      record pointing to it. */
  lemma RefusedInsertKeepsFile(storage: set<string>, t: Table<DocumentRow>, f: DocumentForm, open: bool,
                               now: nat, token: string, user: Option<Id>, message: string)
    requires Validate(f) == []
    ensures var r := Submit(storage, t, f, open, now, token, user, UploadReplies(Accepted, Err(message)));
      StoredName(now, token, f.files[0].name) in r.storage && r.table == t
  {
  }
}

/** The Documents page: search and category filter, category label, archive toggle, the
    two-step delete and the file-size branch. */
module DocumentsPage {
  import opened Wrappers
  import opened Schema
  import opened Store
  import opened Text
  import opened Ui
  import Seqs

  /** `doc.field?.toLowerCase().includes(query)` for a nullable field. */
  predicate OptionalMatches(field: Option<string>, query: string) {
    field.Some? && Matches(field.value, query)
  }

  /** `filteredDocuments`. */
  predicate DocumentMatches(d: DocumentRow, query: string, category: string) {
    && (Matches(d.title, query) || OptionalMatches(d.description, query) || OptionalMatches(d.documentNumber, query))
    && (category == "all" || DocumentCategoryName(d.category) == category)
  }

  function DocumentQuery(query: string, category: string): DocumentRow -> bool {
    (d: DocumentRow) => DocumentMatches(d, query, category)
  }

  function FilterDocuments(docs: seq<DocumentRow>, query: string, category: string): (r: seq<DocumentRow>)
    ensures forall d :: d in r <==> d in docs && DocumentMatches(d, query, category)
    ensures Seqs.IsSubsequence(r, docs)
  {
    Seqs.Filter(docs, DocumentQuery(query, category))
  }

  /** With an empty search and "all" categories every document is listed, in order. */
  lemma NoFilterKeepsDocuments(docs: seq<DocumentRow>)
    ensures FilterDocuments(docs, "", "all") == docs
  {
    forall d | d in docs
      ensures DocumentQuery("", "all")(d)
    {
      MatchesEmptyQuery(d.title);
    }
    Seqs.FilterKeepsAll(docs, DocumentQuery("", "all"));
  }

  /** A category filter keeps exactly the matching documents of that category. */
  lemma CategoryFilterSelectsCategory(docs: seq<DocumentRow>, query: string, c: DocumentCategory)
    ensures forall d :: d in FilterDocuments(docs, query, DocumentCategoryName(c)) ==> d.category == c
  {
    DocumentCategoryConstantsMatchUnion();
    forall d | d in FilterDocuments(docs, query, DocumentCategoryName(c))
      ensures d.category == c
    {
      assert ParseDocumentCategory(DocumentCategoryName(d.category)) == Some(d.category);
    }
  }

  /** The badge text: `category.charAt(0).toUpperCase() + category.slice(1)`. */
  function CategoryLabel(c: DocumentCategory): (shown: string)
    ensures |shown| == |DocumentCategoryName(c)|
    ensures shown[0] == UpperChar(DocumentCategoryName(c)[0]) && shown[1..] == DocumentCategoryName(c)[1..]
  {
    Capitalize(DocumentCategoryName(c))
  }

  /** `colors[category] || "outline"`. */
  function CategoryVariant(c: DocumentCategory): (v: Variant)
    ensures v == Destructive <==> c == Financial
    ensures v == Outline <==> c in {Ordinance, Legal, Other}
    ensures v == Default <==> c in {Resolution, Report}
    ensures v == Secondary <==> c in {Memorandum, Correspondence}
  {
    match c
    case Resolution => Default
    case Memorandum => Secondary
    case Ordinance => Outline
    case Report => Default
    case Financial => Destructive
    case Legal => Outline
    case Correspondence => Secondary
    case Other => Outline
  }

  /** `!currentStatus`, where a `null` flag counts as false. */
  function Negated(current: Option<bool>): (b: bool)
    ensures b <==> current != Some(true)
  {
    !(current.Some? && current.value)
  }

  datatype Outcome = Outcome(storage: set<string>, table: Table<DocumentRow>, toast: Option<Toast>, reload: bool)

  /** `toggleArchive(id, current)`: write the negated flag on row `id` only. */
  function ToggleArchive(storage: set<string>, t: Table<DocumentRow>, id: Id, current: Option<bool>, reply: Reply): (r: Outcome)
    ensures r.storage == storage && r.table.Keys == t.Keys
    ensures forall k :: k in t && k != id ==> r.table[k] == t[k]
    ensures r.reload <==> reply.Accepted?
    ensures reply.Accepted? && id in t ==> r.table[id] == t[id].(isArchived := Some(Negated(current)))
    ensures reply.Accepted? ==> r.toast == Some(Success(if current == Some(true) then "Document unarchived" else "Document archived"))
    ensures reply.Refused? ==> r.table == t && r.toast == Some(Error("Failed to update document"))
  {
    if reply.Accepted? then
      Outcome(storage, UpdateWhereIdIn(t, {id}, (d: DocumentRow) => d.(isArchived := Some(Negated(current)))),
              Some(Success(if current == Some(true) then "Document unarchived" else "Document archived")), true)
    else Outcome(storage, t, Some(Error("Failed to update document")), false)
  }

  /** Two accepted toggles, each passed the flag the reloaded list shows, restore a set flag
      and turn a `null` one into `false`. */
  lemma ToggleTwice(storage: set<string>, t: Table<DocumentRow>, id: Id)
    requires id in t
    ensures var once := ToggleArchive(storage, t, id, t[id].isArchived, Accepted).table;
      var twice := ToggleArchive(storage, once, id, once[id].isArchived, Accepted).table;
      twice[id].isArchived == Some(t[id].isArchived == Some(true))
  {
  }

  datatype DeleteReplies = DeleteReplies(storageRemove: Reply, recordDelete: Reply)

  /** `handleDelete(id, fileName)`: after confirmation remove the stored file, and only when
      that succeeded delete the record. */
  function HandleDelete(storage: set<string>, t: Table<DocumentRow>, id: Id, fileName: string,
                        confirmed: bool, replies: DeleteReplies): (r: Outcome)
    ensures !confirmed ==> r == Outcome(storage, t, None, false)
    ensures confirmed && replies.storageRemove.Refused? ==>
      r == Outcome(storage, t, Some(Error("Failed to delete file from storage")), false)
    ensures confirmed && replies.storageRemove.Accepted? ==> r.storage == storage - {fileName}
    ensures id in t && id !in r.table ==> confirmed && replies.storageRemove.Accepted? && replies.recordDelete.Accepted?
    ensures forall k :: k in r.table ==> k in t && r.table[k] == t[k]
    ensures r.reload <==> confirmed && replies.storageRemove.Accepted? && replies.recordDelete.Accepted?
    ensures r.reload ==> r.table.Keys == t.Keys - {id}
    ensures r.reload ==> r.toast == Some(Success("Document deleted successfully"))
    ensures confirmed && replies.storageRemove.Accepted? && replies.recordDelete.Refused? ==>
      r == Outcome(storage - {fileName}, t, Some(Error("Failed to delete document record")), false)
  {
    if !confirmed then Outcome(storage, t, None, false)
    else if replies.storageRemove.Refused? then Outcome(storage, t, Some(Error("Failed to delete file from storage")), false)
    else if replies.recordDelete.Refused? then
      Outcome(storage - {fileName}, t, Some(Error("Failed to delete document record")), false)
    else Outcome(storage - {fileName}, t - {id}, Some(Success("Document deleted successfully")), true)
  }

  /** A refused record delete after the file was removed leaves a record whose file is gone. */
  lemma RefusedRecordDeleteOrphansRecord(storage: set<string>, t: Table<DocumentRow>, id: Id, message: string)
    requires id in t
    ensures var r := HandleDelete(storage, t, id, t[id].fileName, true, DeleteReplies(Accepted, Refused(message)));
      id in r.table && r.table[id].fileName !in r.storage
  {
  }

  /** The branch `formatFileSize` takes (the decimal text itself is floating point). */
  datatype SizeUnit = NotAvailable | Kilobytes | Megabytes

  function FileSizeUnit(bytes: Option<int>): (u: SizeUnit)
    ensures u == NotAvailable <==> bytes.None? || bytes.value == 0
    ensures u == Megabytes <==> bytes.Some? && bytes.value >= 1048576
  {
    if bytes.None? || bytes.value == 0 then NotAvailable
    else if (bytes.value as real) / (1024.0 * 1024.0) < 1.0 then Kilobytes
    else Megabytes
  }
}
