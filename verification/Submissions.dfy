/** The works handed in for a registration. */
module Submissions {
  import opened Wrappers
  import opened Entities
  import opened Registrations
  import opened Storage

  // ---------- what every request keeps ----------

  /** The registration is past its first payment, and the work's file is still its manager's. */
  ghost predicate SubmissionOk(db: Db, s: Submission) {
    && s.registrationId in db.registrations
    && db.registrations[s.registrationId].status != PendingPayment
    && s.status == Submitted
    && s.storedFileId.Some?
    && (s.storedFileId.value in db.files ==>
          Manages(db.teams, db.registrations[s.registrationId], db.files[s.storedFileId.value].userId))
  }

  ghost predicate SubmissionInv(db: Db) {
    && (forall s | s in db.submissions :: SubmissionOk(db, db.submissions[s]))
    && OnePerRegistration(db.submissions)
  }

  /** The unique index of the table. */
  ghost predicate OnePerRegistration(submissions: map<Id, Submission>) {
    forall s, s' {:trigger SameRegistration(submissions[s], submissions[s'])} |
      s in submissions && s' in submissions && SameRegistration(submissions[s], submissions[s']) :: s == s'
  }

  predicate SameRegistration(a: Submission, b: Submission) {
    a.registrationId == b.registrationId
  }

  // ---------- hand in a work ----------

  ghost predicate HasSubmission(db: Db, reg: Id) {
    exists s :: s in db.submissions && db.submissions[s].registrationId == reg
  }

  ghost function EligibilityVerdict(db: Db, user: Id, reg: Id): (r: Option<Error>)
    ensures r.None? ==> reg in db.registrations
  {
    if reg !in db.registrations then Some(RegistrationNotFound)
    else if db.registrations[reg].status != Verified then Some(NotPaid)
    else if !Manages(db.teams, db.registrations[reg], user) then Some(NotSubmissionManager)
    else None
  }

  /** What the insert says: the title has a column of 255 characters, the registration a unique index. */
  ghost function SaveVerdict(db: Db, user: Id, dto: SubmissionDto): (r: Option<Error>)
    ensures r.None? ==> dto.registrationId in db.registrations && !HasSubmission(db, dto.registrationId)
  {
    if EligibilityVerdict(db, user, dto.registrationId).Some? then EligibilityVerdict(db, user, dto.registrationId)
    else if |dto.title| > 255 then Some(SaveFailed)
    else if HasSubmission(db, dto.registrationId) then Some(AlreadySubmitted)
    else None
  }

  /** The upload steps of the orchestrator: main file, then the originality statement if there is one. */
  function UploadsVerdict(db: Db, user: Id, work: Upload, originality: Upload): (r: Option<Error>)
    ensures r.None? ==> work.Valid? && user in db.users && !originality.Invalid?
  {
    if work.Missing? then Some(WorkFileRequired)
    else if StoreVerdict(db, user, work).Some? then StoreVerdict(db, user, work)
    else if originality.Missing? then None
    else StoreVerdict(db, user, originality)
  }

  function AfterUploads(db: Db, user: Id, work: Upload, originality: Upload): (r: Db)
    ensures r == db.(files := r.files, blobs := r.blobs)
  {
    var db1 := AfterStore(db, user, work);
    if StoreVerdict(db, user, work).Some? then db1 else AfterStore(db1, user, originality)
  }

  ghost function SubmitVerdict(db: Db, user: Id, dto: SubmissionDto, work: Upload, originality: Upload): Option<Error> {
    if UploadsVerdict(db, user, work, originality).Some? then UploadsVerdict(db, user, work, originality)
    else SaveVerdict(AfterUploads(db, user, work, originality), user, dto)
  }

  function NewSubmission(dto: SubmissionDto, work: Upload, originality: Upload): Submission
    requires work.Valid?
  {
    Submission(dto.registrationId, dto.title, dto.description, work.url, Some(work.id),
               if originality.Valid? then Some(originality.url) else None,
               if originality.Valid? then Some(originality.id) else None,
               Submitted)
  }

  ghost function AfterSubmit(db: Db, user: Id, dto: SubmissionDto, work: Upload, originality: Upload, newId: Id)
    : (r: Db)
    ensures r == db.(files := r.files, blobs := r.blobs, submissions := r.submissions)
  {
    var db2 := AfterUploads(db, user, work, originality);
    if SubmitVerdict(db, user, dto, work, originality).None?
    then db2.(submissions := db2.submissions[newId := NewSubmission(dto, work, originality)])
    else db2
  }

  // ---------- take a work back ----------

  function DeleteSubmissionVerdict(db: Db, sub: Id, user: Id): (r: Option<Error>)
    ensures r.None? ==> sub in db.submissions
    ensures r.None? && db.submissions[sub].storedFileId.Some? ==> db.submissions[sub].storedFileId.value in db.files
  {
    if sub !in db.submissions then Some(SubmissionNotFound) else
    var s := db.submissions[sub];
    if s.registrationId !in db.registrations || !Manages(db.teams, db.registrations[s.registrationId], user)
    then Some(MayNotDeleteSubmission)
    else if s.status == Graded then Some(SubmissionGraded)
    else if s.storedFileId.Some? then DeleteFileVerdict(db, s.storedFileId.value, user)
    else None
  }

  function DeleteSubmissionNext(db: Db, sub: Id, user: Id): (r: Db)
    requires DeleteSubmissionVerdict(db, sub, user).None?
    ensures r == db.(files := r.files, blobs := r.blobs, submissions := r.submissions, registrations := r.registrations)
  {
    var s := db.submissions[sub];
    var db1 := if s.storedFileId.Some? then DeleteFileNext(db, s.storedFileId.value) else db;
    db1.(submissions := db1.submissions - {sub})
  }

  // ---------- lemmas ----------

  /** What one registration may go through without disturbing the works handed in for it. */
  ghost predicate RegistrationsPersist(db: Db, db': Db) {
    forall r | r in db.registrations ::
      && r in db'.registrations
      && (db.registrations[r].status != PendingPayment ==> db'.registrations[r].status != PendingPayment)
      && forall u | Manages(db.teams, db.registrations[r], u) :: Manages(db'.teams, db'.registrations[r], u)
  }

  /** No submission appears, and no file that a submission names appears or changes hands. */
  ghost predicate WorksPersist(db: Db, db': Db) {
    forall s | s in db'.submissions ::
      && s in db.submissions && db'.submissions[s] == db.submissions[s]
      && forall f | f in db'.files && db.submissions[s].storedFileId == Some(f) ::
           f in db.files && db'.files[f].userId == db.files[f].userId
  }

  lemma SubmissionsSurvive(db: Db, db': Db)
    requires SubmissionInv(db) && RegistrationsPersist(db, db') && WorksPersist(db, db')
    ensures SubmissionInv(db')
  {
    forall s | s in db'.submissions
      ensures SubmissionOk(db', db'.submissions[s])
    {
      assert SubmissionOk(db, db.submissions[s]);
    }
  }

  lemma StoreKeepsSubmissions(db: Db, user: Id, file: Upload)
    requires SubmissionInv(db)
    requires file.Valid? ==> FileIdUnused(db, file.id)
    ensures SubmissionInv(AfterStore(db, user, file))
  {
    SubmissionsSurvive(db, AfterStore(db, user, file));
  }

  /** The inserted row is the only submission of its registration. */
  lemma InsertKeepsSubmissions(db: Db, newId: Id, sub: Submission)
    requires SubmissionInv(db) && newId !in db.submissions
    requires SubmissionOk(db, sub) && !HasSubmission(db, sub.registrationId)
    ensures SubmissionInv(db.(submissions := db.submissions[newId := sub]))
  {
    var db' := db.(submissions := db.submissions[newId := sub]);
    forall s | s in db'.submissions ensures SubmissionOk(db', db'.submissions[s]) {
      if s != newId { assert SubmissionOk(db, db.submissions[s]); }
    }
    forall s | s in db.submissions
      ensures !SameRegistration(db.submissions[s], sub) && !SameRegistration(sub, db.submissions[s])
    {
    }
  }

  lemma DeleteFileKeepsSubmissions(db: Db, file: Id)
    requires SubmissionInv(db) && file in db.files
    ensures SubmissionInv(DeleteFileNext(db, file))
  {
    SubmissionsSurvive(db, DeleteFileNext(db, file));
  }

  /** A manager's delete can only fail because the file row is already gone: the ownership check of the
      storage layer and the "graded" guard never refuse it. */
  lemma ManagerMayDelete(db: Db, sub: Id, user: Id)
    requires RegistrationInv(db) && SubmissionInv(db)
    requires sub in db.submissions
    requires Manages(db.teams, db.registrations[db.submissions[sub].registrationId], user)
    ensures db.submissions[sub].storedFileId.value in db.files ==> DeleteSubmissionVerdict(db, sub, user) == None
    ensures db.submissions[sub].storedFileId.value !in db.files ==>
      DeleteSubmissionVerdict(db, sub, user) == Some(FileNotFound)
  {
    var s := db.submissions[sub];
    var r := db.registrations[s.registrationId];
    assert SubmissionOk(db, s) && RowOk(db, r);
    ManagerIsUnique(db, r);
    var manager :| Manages(db.teams, r, manager) && forall v | Manages(db.teams, r, v) :: v == manager;
    assert user == manager;
  }

  /** A successful delete removes the row, the main file's row and its blob, and keeps everything else. */
  lemma DeleteRemovesRowAndFile(db: Db, sub: Id, user: Id)
    requires FileInv(db.users, db.files, db.blobs) && SubmissionInv(db)
    requires DeleteSubmissionVerdict(db, sub, user).None?
    ensures
      var db' := DeleteSubmissionNext(db, sub, user);
      var f := db.submissions[sub].storedFileId.value;
      && sub !in db'.submissions && f !in db'.files && db.files[f].fileKey !in db'.blobs
      && (forall s | s in db.submissions && s != sub :: s in db'.submissions && db'.submissions[s] == db.submissions[s])
      && (forall g | g in db.files && g != f :: g in db'.files && db'.files[g] == db.files[g]
                                               && db.files[g].fileKey in db'.blobs)
  {
    assert SubmissionOk(db, db.submissions[sub]);
    var f := db.submissions[sub].storedFileId.value;
    assert forall g | g in db.files && g != f :: !SameKey(db.files[g], db.files[f]);
  }
}
