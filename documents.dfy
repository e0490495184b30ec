/** The documents table and DocumentsService of backend/src/documents/documents.service.ts.
    Instants are minutes (module Clock); the clock reading of each write is a parameter. */
module Documents {
  import opened Common
  import opened Seqs

  /** A row of the documents table (backend/src/documents/document.entity.ts). */
  datatype Document = Document(
    id: nat,
    appointmentId: Option<nat>,
    userId: nat,
    documentType: DocumentType,
    filePath: string,
    status: DocumentStatus,
    officerComments: Option<string>,
    uploadedAt: int,
    updatedAt: int)

  function UploadedAt(d: Document): int
  {
    d.uploadedAt
  }

  /** The key of a newest-first order. */
  function NewestFirst(d: Document): int
  {
    -d.uploadedAt
  }

  predicate OwnedBy(d: Document, userId: nat)
  {
    d.userId == userId
  }

  predicate AttachedTo(d: Document, appointmentId: nat)
  {
    d.appointmentId == Some(appointmentId)
  }

  /** The primary key of a row. */
  function IdOf(d: Document): nat
  {
    d.id
  }

  function IndexOfId(rows: seq<Document>, id: nat): (r: Option<nat>)
    ensures r.Some? ==> r.value < |rows| && rows[r.value].id == id
    ensures r.None? <==> forall d :: d in rows ==> d.id != id
  {
    if rows == [] then None
    else if rows[0].id == id then Some(0)
    else match IndexOfId(rows[1..], id)
      case None => None
      case Some(i) => Some(i + 1)
  }

  class DocumentTable {
    var rows: seq<Document>
    var nextId: nat

    ghost predicate Valid()
      reads this
    {
      && UniqueKeys(rows, IdOf)
      && forall d :: d in rows ==> d.id < nextId
    }

    constructor ()
      ensures Valid() && rows == []
    {
      rows := [];
      nextId := 0;
    }

    /** `create`: one new row with the given owner, type, path and optional
        appointment, status Uploaded, no comments, stamped with `now`. */
    method Create(userId: nat, documentType: DocumentType, filePath: string,
                  appointmentId: Option<nat>, now: int)
      returns (d: Document)
      requires Valid()
      modifies this
      ensures Valid()
      ensures rows == old(rows) + [d]
      ensures forall e :: e in old(rows) ==> e.id != d.id
      ensures && d.userId == userId && d.documentType == documentType
              && d.filePath == filePath && d.appointmentId == appointmentId
              && d.status == Uploaded && d.officerComments == None
              && d.uploadedAt == now && d.updatedAt == now
    {
      d := Document(nextId, appointmentId, userId, documentType, filePath, Uploaded, None, now, now);
      rows := rows + [d];
      nextId := nextId + 1;
    }

    /** `findByUserId`: exactly that user's documents, newest upload first. */
    function FindByUserId(userId: nat): (r: seq<Document>)
      reads this
      ensures forall d :: d in r <==> d in rows && d.userId == userId
      ensures forall i, j :: 0 <= i < j < |r| ==> r[i].uploadedAt >= r[j].uploadedAt
      ensures multiset(r) == multiset(Filter(rows, d => OwnedBy(d, userId)))
    {
      var r := SortBy(Filter(rows, d => OwnedBy(d, userId)), NewestFirst);
      assert forall i, j :: 0 <= i < j < |r| ==> NewestFirst(r[i]) <= NewestFirst(r[j]);
      r
    }

    /** `findByAppointmentId`: exactly that appointment's documents, oldest first. */
    function FindByAppointmentId(appointmentId: nat): (r: seq<Document>)
      reads this
      ensures forall d :: d in r <==> d in rows && d.appointmentId == Some(appointmentId)
      ensures forall i, j :: 0 <= i < j < |r| ==> r[i].uploadedAt <= r[j].uploadedAt
      ensures multiset(r) == multiset(Filter(rows, d => AttachedTo(d, appointmentId)))
    {
      var r := SortBy(Filter(rows, d => AttachedTo(d, appointmentId)), UploadedAt);
      assert forall i, j :: 0 <= i < j < |r| ==> UploadedAt(r[i]) <= UploadedAt(r[j]);
      r
    }

    /** `updateStatus`: NotFound for an unknown id, with nothing changed; otherwise
        the status is set, the comments only when supplied, the update time is
        `now`, and every other field and row stays as it was. */
    method UpdateStatus(id: nat, status: DocumentStatus, comments: Option<Option<string>>, now: int)
      returns (r: Result<Document>)
      requires Valid()
      modifies this
      ensures Valid() && nextId == old(nextId) && |rows| == |old(rows)|
      ensures (forall d :: d in old(rows) ==> d.id != id) <==> r == Err(NotFound)
      ensures (exists d :: d in old(rows) && d.id == id) <==> r.Ok?
      ensures r.Err? ==> rows == old(rows)
      ensures r.Ok? ==> exists i :: && 0 <= i < |rows| && old(rows)[i].id == id
                                    && r.value == old(rows)[i].(status := status,
                                         officerComments := if comments.Some? then comments.value
                                                            else old(rows)[i].officerComments,
                                         updatedAt := now)
                                    && rows == old(rows)[i := r.value]
    {
      var i := IndexOfId(rows, id);
      if i.None? {
        return Err(NotFound);
      }
      var k := i.value;
      var document := rows[k].(status := status);
      if comments.Some? {
        document := document.(officerComments := comments.value);
      }
      document := document.(updatedAt := now);
      rows := rows[k := document];
      r := Ok(document);
    }
  }
}
