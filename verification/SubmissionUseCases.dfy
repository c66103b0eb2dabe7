/** Handing in a work and taking it back, as the orchestrator and the use cases do it. */
module SubmissionUseCases {
  import opened Wrappers
  import opened Entities
  import opened Registrations
  import opened Submissions
  import StorageUseCases
  import D = Database

  /** The orchestrator stores the files before anybody asks whether the submission is allowed. */
  method CreateSubmission(db: D.Database, user: Id, dto: SubmissionDto, work: Upload, originality: Upload, newId: Id)
    returns (refused: Option<Error>)
    modifies db`submissions, db`files, db`blobs
    ensures refused == SubmitVerdict(old(db.View()), user, dto, work, originality)
    ensures db.View() == AfterSubmit(old(db.View()), user, dto, work, originality, newId)
  {
    if work.Missing? {
      return Some(WorkFileRequired);
    }
    refused := StorageUseCases.UploadFile(db, user, work);
    if refused.Some? {
      return;
    }
    var originalityUrl, originalityId := None, None;
    if !originality.Missing? {
      refused := StorageUseCases.UploadFile(db, user, originality);
      if refused.Some? {
        return;
      }
      originalityUrl, originalityId := Some(originality.url), Some(originality.id);
    }
    refused := SaveSubmission(db, user, dto, work.url, work.id, originalityUrl, originalityId, newId);
  }

  /** Existence, eligibility, then the insert that the title or the unique index on the registration may fail. */
  method SaveSubmission(db: D.Database, user: Id, dto: SubmissionDto, fileUrl: string, storedFileId: Id,
                        originalityFileUrl: Option<string>, originalityStoredFileId: Option<Id>, newId: Id)
    returns (refused: Option<Error>)
    modifies db`submissions
    ensures refused == SaveVerdict(old(db.View()), user, dto)
    ensures db.submissions == if refused.Some? then old(db.submissions) else
      old(db.submissions)[newId := Submission(dto.registrationId, dto.title, dto.description, fileUrl,
                                              Some(storedFileId), originalityFileUrl, originalityStoredFileId,
                                              Submitted)]
  {
    if dto.registrationId !in db.registrations {
      return Some(RegistrationNotFound);
    }
    var registration := db.registrations[dto.registrationId];
    if registration.status != Verified {
      return Some(NotPaid);
    }
    if !Manages(db.teams, registration, user) {
      return Some(NotSubmissionManager);
    }
    var submission := Submission(dto.registrationId, dto.title, dto.description, fileUrl, Some(storedFileId),
                                 originalityFileUrl, originalityStoredFileId, Submitted);
    if |dto.title| > 255 {
      return Some(SaveFailed);
    }
    var submitted := db.FindSubmission(dto.registrationId);
    if submitted {
      return Some(AlreadySubmitted);
    }
    db.submissions := db.submissions[newId := submission];
    refused := None;
  }

  method DeleteSubmission(db: D.Database, sub: Id, user: Id) returns (refused: Option<Error>)
    modifies db`submissions, db`files, db`blobs, db`registrations
    ensures refused == DeleteSubmissionVerdict(old(db.View()), sub, user)
    ensures db.View() == if refused.Some? then old(db.View()) else DeleteSubmissionNext(old(db.View()), sub, user)
  {
    if sub !in db.submissions {
      return Some(SubmissionNotFound);
    }
    var submission := db.submissions[sub];
    if submission.registrationId !in db.registrations
      || !Manages(db.teams, db.registrations[submission.registrationId], user) {
      return Some(MayNotDeleteSubmission);
    }
    if submission.status == Graded {
      return Some(SubmissionGraded);
    }
    if submission.storedFileId.Some? {
      refused := StorageUseCases.DeleteStoredFile(db, submission.storedFileId.value, user);
      if refused.Some? {
        return;
      }
    }
    db.submissions := db.submissions - {sub};
    refused := None;
  }
}
