/** Document rows and the compare-and-set statements that write them. A statement whose WHERE clause
    matches no row changes nothing and fails, here with None. */
module Documents {
  import opened Prelude

  datatype Status = DRAFT | REVIEW | NEEDS_REVISION | APPROVED
  datatype FileUrl = Legacy(url: string) | PrivateFile(id: int)
  datatype Document = Document(
    id: int, title: string, fileUrl: FileUrl, fileKey: Option<string>, version: int, status: Status,
    feedback: Option<string>, portraitId: int, programId: Option<int>, updatedAt: int, deletedAt: Option<int>)

  type Table = map<int, Document>

  /** Every writer takes the clock or, when the clock has not moved on, one millisecond more. */
  function NextTimestamp(now: int, previous: int): (t: int)
    ensures t > previous
  {
    if now > previous + 1 then now else previous + 1
  }

  function CreatePrivate(t: Table, id: int, title: string, key: string, portraitId: int, programId: Option<int>,
                         now: int): Option<Table> {
    if id in t then None
    else Some(t[id := Document(id, title, PrivateFile(id), Some(key), 1, DRAFT, None, portraitId, programId, now,
                               None)])
  }

  /** The row still is the one that was read, as far as the WHERE clause of updatePrivateVersion looks. */
  predicate SameVersion(row: Document, doc: Document) {
    && row.version == doc.version && row.status == doc.status && row.updatedAt == doc.updatedAt
    && row.fileUrl == doc.fileUrl && row.fileKey == doc.fileKey && row.deletedAt == doc.deletedAt
    && row.portraitId == doc.portraitId && row.programId == doc.programId
  }

  function UpdatePrivateVersion(t: Table, doc: Document, key: string, now: int): Option<Table> {
    if doc.id in t && SameVersion(t[doc.id], doc) then
      var row := t[doc.id];
      Some(t[doc.id := row.(fileKey := Some(key), fileUrl := PrivateFile(doc.id), version := row.version + 1,
                            status := DRAFT,
                            feedback := None, updatedAt := NextTimestamp(now, doc.updatedAt))])
    else None
  }

  /** The public projection of a row hides fileKey and deletedAt; its writers demand a live row. */
  predicate SamePublic(row: Document, doc: Document) {
    && row.deletedAt.None? && row.version == doc.version && row.updatedAt == doc.updatedAt
    && row.status == doc.status && row.fileUrl == doc.fileUrl
  }

  function UpdateStatus(t: Table, doc: Document, status: Status, feedback: Option<string>, now: int): Option<Table> {
    if doc.id in t && SamePublic(t[doc.id], doc) then
      var row := t[doc.id];
      Some(t[doc.id := row.(status := status, feedback := if feedback.Some? then feedback else row.feedback,
                            updatedAt := NextTimestamp(now, doc.updatedAt))])
    else None
  }

  datatype StaffChange = Title(title: string) | Archive

  function UpdateStaffDocument(t: Table, doc: Document, change: StaffChange, now: int): Option<Table> {
    if doc.id in t && SameVersion(t[doc.id], doc) && t[doc.id].deletedAt.None? then
      var row := t[doc.id];
      Some(t[doc.id := (match change
                        case Title(title) => row.(title := title)
                        case Archive => row.(deletedAt := Some(now))).(updatedAt := NextTimestamp(now, doc.updatedAt))])
    else None
  }

  datatype Outcome = Written(table: Table) | Unchanged | NotFound | BadRequest | Conflict

  function Write(updated: Option<Table>): Outcome {
    match updated case Some(t) => Written(t) case None => Conflict
  }

  /** submitForReview writes against a row that it read in an earlier statement. */
  function SubmitForReview(t: Table, read: Option<Document>, now: int): Outcome {
    if read.None? then NotFound
    else if read.value.status != DRAFT then BadRequest
    else Write(UpdateStatus(t, read.value, REVIEW, None, now))
  }

  /** review reads and writes in one serializable transaction. */
  function Review(t: Table, id: int, verdict: Status, feedback: Option<string>, now: int): Outcome {
    if verdict != APPROVED && verdict != NEEDS_REVISION then BadRequest
    else if id !in t || t[id].deletedAt.Some? then NotFound
    else if t[id].status != REVIEW then BadRequest
    else Write(UpdateStatus(t, t[id], verdict, feedback, now))
  }

  /** Rename or archive, provided the caller saw the present (version, updatedAt); archiving twice is harmless. */
  function StaffMutation(t: Table, id: int, portraitId: int, version: int, updatedAt: int, change: StaffChange,
                         now: int): Outcome {
    if id !in t || t[id].portraitId != portraitId then NotFound
    else if t[id].deletedAt.Some? then (if change.Archive? then Unchanged else NotFound)
    else if t[id].version != version || t[id].updatedAt != updatedAt then Conflict
    else Write(UpdateStaffDocument(t, t[id], change, now))
  }

  /** How a row may differ between two moments of a run. */
  predicate RowEvolves(a: Document, b: Document) {
    && a.id == b.id && a.portraitId == b.portraitId
    && a.version <= b.version && a.updatedAt <= b.updatedAt
    && (a.updatedAt == b.updatedAt ==> a == b)
    && (a.version == b.version ==> a.fileKey == b.fileKey)
    && (a.deletedAt.Some? ==> a == b)
  }

  predicate TableEvolves(t: Table, t': Table) {
    forall id :: id in t ==> id in t' && RowEvolves(t[id], t'[id])
  }

  predicate RowsNamed(t: Table) {
    forall id :: id in t ==> t[id].id == id
  }
}
