/** DocumentService: uploading a driver's or a vehicle's document, editing
    it, deleting it softly, and the three ways of recording a verdict on it.
    Writing the file to disk is not modelled: the stored path it produces
    (a fresh Guid plus the original extension under Uploads/Documents) is a
    parameter.
 */
module Documents {
  import opened Common
  import opened Models
  import opened Store
  import opened Mappers

  /** The multipart file of an upload (IFormFile): its name, its length in
      bytes and the content type the client declared. */
  datatype FormFile = FormFile(fileName: string, length: int, contentType: string)

  datatype CreateDocumentDto = CreateDocumentDto(
    documentType: DocumentType, driverId: Option<Id>, vehicleId: Option<Id>, file: Option<FormFile>)

  datatype UpdateDocumentDto = UpdateDocumentDto(documentType: DocumentType, rejectionReason: Option<string>)

  /** The largest accepted upload, 10 MiB. */
  const MaxFileSize: int := 10 * 1024 * 1024

  const AllowedContentTypes: seq<string> := ["image/jpeg", "image/png", "image/jpg", "application/pdf"]

  // ----- content types -----

  /** char.ToLower on the characters whose lower case is an ASCII letter:
      'A'..'Z', U+0130 (capital I with dot) and U+212A (Kelvin sign). */
  function LowerChar(c: char): (r: char)
    ensures 'A' <= c <= 'Z' ==> r as int == c as int + 32
    ensures !('A' <= c <= 'Z') && c != '\U{0130}' && c != '\U{212A}' ==> r == c
  {
    if 'A' <= c <= 'Z' then (c as int + 32) as char
    else if c == '\U{0130}' then 'i'
    else if c == '\U{212A}' then 'k'
    else c
  }

  /** string.ToLower, character by character. */
  function ToLower(s: string): (r: string)
    ensures |r| == |s| && forall i :: 0 <= i < |s| ==> r[i] == LowerChar(s[i])
  {
    if s == [] then [] else [LowerChar(s[0])] + ToLower(s[1..])
  }

  /** The content-type test of the upload: case does not matter. */
  predicate AllowedContentType(contentType: string) {
    ToLower(contentType) in AllowedContentTypes
  }

  /** Lower-casing a lower-cased string changes nothing. */
  lemma ToLowerIdempotent(s: string)
    ensures ToLower(ToLower(s)) == ToLower(s)
  {
    var l := ToLower(s);
    forall i | 0 <= i < |s| ensures ToLower(l)[i] == l[i] {
      assert l[i] == LowerChar(s[i]);
    }
  }

  /** A content type is accepted exactly when its lower-case form is, so the
      test is insensitive to case. */
  lemma ContentTypeIgnoresCase(contentType: string)
    ensures AllowedContentType(contentType) <==> AllowedContentType(ToLower(contentType))
  {
    ToLowerIdempotent(contentType);
  }

  // ----- the document table -----

  /** A document as an upload creates it, and as every later operation keeps
      it: owned by a driver or a vehicle, within the size limit, of an
      accepted type, and with verification fields that agree with the
      verdict. */
  predicate WellFormedDocument(doc: Document) {
    (doc.driverId.Some? || doc.vehicleId.Some?)
    && doc.fileSize <= MaxFileSize
    && doc.mimeType.Some? && AllowedContentType(doc.mimeType.value)
    && VerificationConsistent(doc)
  }

  predicate DocumentsWellFormed(db: Db) {
    forall k :: k in db.documents ==> WellFormedDocument(db.documents[k])
  }

  /** `db'` differs from `db` at most in the document `id`. */
  predicate OnlyDocumentChanged(db: Db, db': Db, id: Id) {
    db' == db.(documents := db'.documents) && db'.documents.Keys == db.documents.Keys
    && forall k :: k in db.documents && k != id ==> db'.documents[k] == db.documents[k]
  }

  // ----- upload -----

  /** UploadDocumentAsync: the checks run in a fixed order (an owner is
      named, the named driver and vehicle exist, the size, the type); a
      passing upload adds one unverified document under the fresh key. */
  function UploadDocument(db: Db, file: FormFile, d: UploadDocumentDto, newId: Id, filePath: string): (r: Result<Db>)
    requires newId !in db.documents
    ensures r.Ok? <==> (d.driverId.Some? || d.vehicleId.Some?)
                       && (d.driverId.Some? ==> DriverVisible(db, d.driverId.value))
                       && (d.vehicleId.Some? ==> VehicleVisible(db, d.vehicleId.value))
                       && file.length <= MaxFileSize && AllowedContentType(file.contentType)
    ensures r.Err? ==> r.error == (if d.driverId.None? && d.vehicleId.None? then DocumentOwnerRequired
                                   else if d.driverId.Some? && !DriverVisible(db, d.driverId.value) then DriverNotFound
                                   else if d.vehicleId.Some? && !VehicleVisible(db, d.vehicleId.value) then VehicleNotFound
                                   else if file.length > MaxFileSize then FileTooLarge
                                   else FileTypeNotAllowed)
    ensures r.Ok? ==> r.value == db.(documents := r.value.documents)
                      && r.value.documents.Keys == db.documents.Keys + {newId}
                      && (forall k :: k in db.documents ==> r.value.documents[k] == db.documents[k])
    ensures r.Ok? ==> var doc := r.value.documents[newId];
                      doc.driverId == d.driverId && doc.vehicleId == d.vehicleId
                      && doc.documentType == d.documentType && doc.filePath == filePath
                      && doc.originalFileName == Some(file.fileName) && doc.fileSize == file.length
                      && doc.mimeType == Some(file.contentType)
                      && !doc.isVerified && doc.verifiedAt.None? && doc.verifiedBy.None?
                      && doc.rejectionReason.None? && !doc.isDeleted
  {
    if d.driverId.None? && d.vehicleId.None? then Err(DocumentOwnerRequired)
    else if d.driverId.Some? && !DriverVisible(db, d.driverId.value) then Err(DriverNotFound)
    else if d.vehicleId.Some? && !VehicleVisible(db, d.vehicleId.value) then Err(VehicleNotFound)
    else if file.length > MaxFileSize then Err(FileTooLarge)
    else if !AllowedContentType(file.contentType) then Err(FileTypeNotAllowed)
    else
      var doc := DocumentFromUpload(d, filePath, file.fileName, file.length, file.contentType);
      Ok(db.(documents := db.documents[newId := doc]))
  }

  /** CreateDocumentAsync: a request without a file is rejected; otherwise
      it is the upload of that file. */
  function CreateDocument(db: Db, d: CreateDocumentDto, newId: Id, filePath: string): (r: Result<Db>)
    requires newId !in db.documents
    ensures d.file.None? ==> r == Err(FileRequired)
    ensures d.file.Some? ==> r == UploadDocument(db, d.file.value,
                                   UploadDocumentDto(d.documentType, d.driverId, d.vehicleId), newId, filePath)
  {
    if d.file.None? then Err(FileRequired)
    else UploadDocument(db, d.file.value, UploadDocumentDto(d.documentType, d.driverId, d.vehicleId), newId, filePath)
  }

  // ----- edits -----

  /** UpdateDocumentAsync: the type is always written; a rejection reason
      only when the new one is not blank, so an update cannot clear it. */
  function UpdateDocument(db: Db, id: Id, d: UpdateDocumentDto): (r: Result<Db>)
    ensures r.Ok? <==> DocumentVisible(db, id)
    ensures r.Err? ==> r.error == DocumentNotFound
    ensures r.Ok? ==> OnlyDocumentChanged(db, r.value, id)
    ensures r.Ok? ==> var before, after := db.documents[id], r.value.documents[id];
                      after.documentType == d.documentType
                      && after.rejectionReason == (if IsNullOrWhiteSpace(d.rejectionReason) then before.rejectionReason
                                                   else d.rejectionReason)
                      && after == before.(documentType := after.documentType, rejectionReason := after.rejectionReason)
  {
    if !DocumentVisible(db, id) then Err(DocumentNotFound)
    else
      var doc := db.documents[id];
      var reason := if IsNullOrWhiteSpace(d.rejectionReason) then doc.rejectionReason else d.rejectionReason;
      Ok(db.(documents := db.documents[id := doc.(documentType := d.documentType, rejectionReason := reason)]))
  }

  /** DeleteDocumentAsync: false for a missing or already deleted document;
      otherwise only its IsDeleted flag is set. */
  function DeleteDocument(db: Db, id: Id): (r: (bool, Db))
    ensures r.0 <==> DocumentVisible(db, id)
    ensures !r.0 ==> r.1 == db
    ensures r.0 ==> OnlyDocumentChanged(db, r.1, id)
                    && r.1.documents[id] == db.documents[id].(isDeleted := true)
  {
    if !DocumentVisible(db, id) then (false, db)
    else (true, db.(documents := db.documents[id := db.documents[id].(isDeleted := true)]))
  }

  // ----- verdicts -----

  /** VerifyDocumentAsync(id, dto): the verdict of the DTO, stamped with the
      current user and time when positive, carrying its reason when not. */
  function VerifyDocumentWithDetails(db: Db, id: Id, d: DocumentVerificationDto, currentUser: string, now: Time): (r: Result<Db>)
    ensures r.Ok? <==> DocumentVisible(db, id)
    ensures r.Err? ==> r.error == DocumentNotFound
    ensures r.Ok? ==> OnlyDocumentChanged(db, r.value, id)
    ensures r.Ok? ==> var after := r.value.documents[id];
                      after.isVerified == d.isVerified
                      && (after.verifiedAt.Some? <==> d.isVerified)
                      && (after.verifiedAt.Some? ==> after.verifiedAt == Some(now))
                      && after.verifiedBy == (if d.isVerified then Some(currentUser) else None)
                      && after.rejectionReason == (if d.isVerified then None else d.rejectionReason)
                      && VerificationConsistent(after)
  {
    if !DocumentVisible(db, id) then Err(DocumentNotFound)
    else Ok(db.(documents := db.documents[id := UpdateVerification(db.documents[id], d, currentUser, now)]))
  }

  /** VerifyDocumentAsync(id): approve, clearing any earlier rejection. */
  function VerifyDocument(db: Db, id: Id, currentUser: string, now: Time): (r: (bool, Db))
    ensures r.0 <==> DocumentVisible(db, id)
    ensures !r.0 ==> r.1 == db
    ensures r.0 ==> OnlyDocumentChanged(db, r.1, id)
                    && r.1.documents[id] == db.documents[id].(isVerified := true, verifiedAt := Some(now),
                                                             verifiedBy := Some(currentUser), rejectionReason := None)
  {
    if !DocumentVisible(db, id) then (false, db)
    else
      var doc := db.documents[id];
      (true, db.(documents := db.documents[id := doc.(isVerified := true, verifiedAt := Some(now),
                                                      verifiedBy := Some(currentUser), rejectionReason := None)]))
  }

  /** RejectDocumentAsync: reject with a reason, clearing any approval. */
  function RejectDocument(db: Db, id: Id, reason: string): (r: (bool, Db))
    ensures r.0 <==> DocumentVisible(db, id)
    ensures !r.0 ==> r.1 == db
    ensures r.0 ==> OnlyDocumentChanged(db, r.1, id)
                    && r.1.documents[id] == db.documents[id].(isVerified := false, verifiedAt := None,
                                                             verifiedBy := None, rejectionReason := Some(reason))
  {
    if !DocumentVisible(db, id) then (false, db)
    else
      var doc := db.documents[id];
      (true, db.(documents := db.documents[id := doc.(isVerified := false, verifiedAt := None,
                                                      verifiedBy := None, rejectionReason := Some(reason))]))
  }

  // ----- properties -----

  /** The two plain verdicts are the detailed verdict with a fixed DTO: an
      approval is `IsVerified = true` (whatever reason it carries), a
      rejection is `IsVerified = false` with the given reason. */
  lemma PlainVerdictsAreDetailedVerdicts(db: Db, id: Id, reason: Option<string>, rejection: string,
                                         currentUser: string, now: Time)
    ensures VerifyDocument(db, id, currentUser, now).0 ==>
              Ok(VerifyDocument(db, id, currentUser, now).1)
              == VerifyDocumentWithDetails(db, id, DocumentVerificationDto(true, reason), currentUser, now)
    ensures RejectDocument(db, id, rejection).0 ==>
              Ok(RejectDocument(db, id, rejection).1)
              == VerifyDocumentWithDetails(db, id, DocumentVerificationDto(false, Some(rejection)), currentUser, now)
  {
  }

  /** A later verdict overrides an earlier one entirely. */
  lemma LatestDocumentVerdictWins(db: Db, id: Id, first: DocumentVerificationDto, second: DocumentVerificationDto,
                                  by1: string, by2: string, t1: Time, t2: Time)
    requires DocumentVisible(db, id)
    ensures VerifyDocumentWithDetails(db, id, first, by1, t1).Ok?
    ensures VerifyDocumentWithDetails(VerifyDocumentWithDetails(db, id, first, by1, t1).value, id, second, by2, t2)
            == VerifyDocumentWithDetails(db, id, second, by2, t2)
  {
    var db1 := VerifyDocumentWithDetails(db, id, first, by1, t1).value;
    LatestVerdictWins(db.documents[id], first, second, by1, by2, t1, t2);
    assert db1.documents[id := UpdateVerification(db1.documents[id], second, by2, t2)]
           == db.documents[id := UpdateVerification(db.documents[id], second, by2, t2)];
  }

  /** Every operation of the service keeps the document table well formed. */
  lemma UploadKeepsDocumentsWellFormed(db: Db, file: FormFile, d: UploadDocumentDto, newId: Id, filePath: string)
    requires newId !in db.documents && DocumentsWellFormed(db)
    ensures UploadDocument(db, file, d, newId, filePath).Ok? ==>
              DocumentsWellFormed(UploadDocument(db, file, d, newId, filePath).value)
  {
  }

  /** Replacing one document by a well-formed one keeps the table well formed. */
  lemma ReplaceDocument(db: Db, db': Db, id: Id)
    requires DocumentsWellFormed(db) && OnlyDocumentChanged(db, db', id)
    requires id in db'.documents ==> WellFormedDocument(db'.documents[id])
    ensures DocumentsWellFormed(db')
  {
    forall k | k in db'.documents ensures WellFormedDocument(db'.documents[k]) {
      if k != id {
        assert db'.documents[k] == db.documents[k];
      }
    }
  }

  lemma UpdateKeepsDocumentsWellFormed(db: Db, id: Id, d: UpdateDocumentDto)
    requires DocumentsWellFormed(db)
    ensures UpdateDocument(db, id, d).Ok? ==> DocumentsWellFormed(UpdateDocument(db, id, d).value)
  {
    var r := UpdateDocument(db, id, d);
    if r.Ok? {
      ReplaceDocument(db, r.value, id);
    }
  }

  lemma DeleteKeepsDocumentsWellFormed(db: Db, id: Id)
    requires DocumentsWellFormed(db)
    ensures DocumentsWellFormed(DeleteDocument(db, id).1)
  {
    var r := DeleteDocument(db, id);
    if r.0 {
      ReplaceDocument(db, r.1, id);
    }
  }

  lemma VerdictsKeepDocumentsWellFormed(db: Db, id: Id, v: DocumentVerificationDto,
                                        reason: string, currentUser: string, now: Time)
    requires DocumentsWellFormed(db)
    ensures VerifyDocumentWithDetails(db, id, v, currentUser, now).Ok? ==>
              DocumentsWellFormed(VerifyDocumentWithDetails(db, id, v, currentUser, now).value)
    ensures DocumentsWellFormed(VerifyDocument(db, id, currentUser, now).1)
    ensures DocumentsWellFormed(RejectDocument(db, id, reason).1)
  {
    var r1 := VerifyDocumentWithDetails(db, id, v, currentUser, now);
    if r1.Ok? {
      ReplaceDocument(db, r1.value, id);
    }
    var r2 := VerifyDocument(db, id, currentUser, now);
    if r2.0 {
      ReplaceDocument(db, r2.1, id);
    }
    var r3 := RejectDocument(db, id, reason);
    if r3.0 {
      ReplaceDocument(db, r3.1, id);
    }
  }
}
