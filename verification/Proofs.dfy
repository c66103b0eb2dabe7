/** The stored files behind payment proofs. A proof's file can be deleted on its own; the foreign key then
    clears the reference of the attempt and leaves the rest of the attempt alone. */
module Proofs {
  import opened Wrappers
  import opened Entities
  import opened Storage
  import opened Registrations

  /** Some attempt of the registration refers to the file. */
  ghost predicate Names(r: Registration, file: Id) {
    exists i :: 0 <= i < |r.attempts| && r.attempts[i].proofOfPaymentFileId == Some(file)
  }

  ghost predicate NamedByWork(submissions: map<Id, Submission>, file: Id) {
    exists s :: s in submissions && submissions[s].storedFileId == Some(file)
  }

  /** A proof's file exists, belongs to the person who manages the registration, and is no work's file. */
  ghost predicate ProofInv(db: Db) {
    forall r, f {:trigger Names(db.registrations[r], f)} | r in db.registrations && Names(db.registrations[r], f) ::
      && f in db.files && Manages(db.teams, db.registrations[r], db.files[f].userId)
      && !NamedByWork(db.submissions, f)
  }

  /** No proof appears, and no proof's file disappears, changes hands or becomes the file of a work. */
  ghost predicate ProofsPersist(db: Db, db': Db) {
    forall r, f {:trigger Names(db'.registrations[r], f)} | r in db'.registrations && Names(db'.registrations[r], f) ::
      && r in db.registrations && Names(db.registrations[r], f)
      && (f in db.files ==> f in db'.files && db'.files[f].userId == db.files[f].userId)
      && (NamedByWork(db'.submissions, f) ==> NamedByWork(db.submissions, f))
  }

  // ---------- one attempt over time ----------

  /** The attempt is as it was, except that its reference may have been cleared. */
  predicate SameOrDetached(a: Attempt, a': Attempt) {
    a' == a || a' == a.(proofOfPaymentFileId := None)
  }

  /** A row whose attempts are as they were, up to cleared references. */
  predicate SameRow(r: Registration, r': Registration) {
    && r' == r.(attempts := r'.attempts)
    && |r'.attempts| == |r.attempts|
    && forall i | 0 <= i < |r.attempts| :: SameOrDetached(r.attempts[i], r'.attempts[i])
  }

  ghost predicate SameRows(db: Db, db': Db) {
    && db'.registrations.Keys == db.registrations.Keys
    && forall r | r in db.registrations :: SameRow(db.registrations[r], db'.registrations[r])
  }

  // ---------- lemmas ----------

  /** The status does not depend on which proofs still have their file. */
  lemma SameRowKeepsCoupling(r: Registration, r': Registration)
    requires Coupled(r) && SameRow(r, r')
    ensures Coupled(r')
  {
  }

  lemma SameRowsKeepRegistrations(db: Db, db': Db)
    requires RegistrationInv(db) && SameRows(db, db')
    requires db'.users == db.users && db'.teams == db.teams && db'.competitions == db.competitions
    ensures RegistrationInv(db')
  {
    forall r | r in db'.registrations ensures RowOk(db', db'.registrations[r]) && Coupled(db'.registrations[r]) {
      assert RowOk(db, db.registrations[r]);
      SameRowKeepsCoupling(db.registrations[r], db'.registrations[r]);
    }
    forall r, s | r in db'.registrations && s in db'.registrations && Clash(db'.registrations[r], db'.registrations[s])
      ensures r == s
    {
      assert Clash(db.registrations[r], db.registrations[s]);
    }
  }

  lemma DeleteFileKeepsRows(db: Db, file: Id)
    requires file in db.files
    ensures SameRows(db, DeleteFileNext(db, file))
  {
  }

  lemma DetachedAt(db: Db, file: Id, r: Id, i: nat)
    requires file in db.files && r in db.registrations && i < |db.registrations[r].attempts|
    ensures r in DeleteFileNext(db, file).registrations
    ensures i < |DeleteFileNext(db, file).registrations[r].attempts|
    ensures DeleteFileNext(db, file).registrations[r].attempts[i] == Detached(db.registrations[r].attempts[i], file)
  {
  }

  /** After the delete an attempt refers to the files it referred to before, without the deleted one. */
  lemma NamesAfterDelete(db: Db, file: Id, r: Id, f: Id)
    requires file in db.files && r in db.registrations
    ensures Names(DeleteFileNext(db, file).registrations[r], f) <==> Names(db.registrations[r], f) && f != file
  {
    var was, now := db.registrations[r].attempts, DeleteFileNext(db, file).registrations[r].attempts;
    assert forall i | 0 <= i < |was| :: now[i] == Detached(was[i], file);
    if i :| 0 <= i < |was| && was[i].proofOfPaymentFileId == Some(f) {
      assert f != file ==> now[i].proofOfPaymentFileId == Some(f);
    }
  }

  /** Deleting a file that no attempt refers to leaves the registrations as they are. */
  lemma UnnamedFileIsUnseen(db: Db, file: Id)
    requires file in db.files
    requires forall r | r in db.registrations :: !Names(db.registrations[r], file)
    ensures DeleteFileNext(db, file).registrations == db.registrations
  {
    var db' := DeleteFileNext(db, file);
    forall r | r in db.registrations ensures db'.registrations[r] == db.registrations[r] {
      assert !Names(db.registrations[r], file);
      assert db'.registrations[r].attempts == db.registrations[r].attempts;
    }
  }

  /** The file of a work is no proof, so taking a work back leaves every registration as it is. */
  lemma WorkFileIsUnseen(db: Db, sub: Id)
    requires ProofInv(db) && sub in db.submissions && db.submissions[sub].storedFileId.Some?
    requires db.submissions[sub].storedFileId.value in db.files
    ensures DeleteFileNext(db, db.submissions[sub].storedFileId.value).registrations == db.registrations
  {
    var f := db.submissions[sub].storedFileId.value;
    assert NamedByWork(db.submissions, f);
    UnnamedFileIsUnseen(db, f);
  }

  /** An accepted proof: its file is new, stored for the user who manages the registration. */
  lemma WithProofNames(r: Registration, id: Id, file: Upload, now: Time, f: Id)
    requires file.Valid?
    ensures Names(WithProof(r, id, file, now), f) <==> Names(r, f) || f == file.id
  {
    var after := WithProof(r, id, file, now);
    assert forall i | 0 <= i < |r.attempts| :: after.attempts[i] == r.attempts[i];
    assert after.attempts[|r.attempts|].proofOfPaymentFileId == Some(file.id);
  }

  lemma DecidedNames(r: Registration, treasurer: Id, dto: VerifyDto, now: Time, f: Id)
    requires r.attempts != []
    ensures Names(Decided(r, treasurer, dto, now), f) <==> Names(r, f)
  {
    var after := Decided(r, treasurer, dto, now);
    assert forall i | 0 <= i < |r.attempts| ::
        after.attempts[i].proofOfPaymentFileId == r.attempts[i].proofOfPaymentFileId;
  }
}
