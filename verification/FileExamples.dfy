/** Two runs in which a user deletes a stored file that something still refers to. */
module FileExamples {
  import opened Wrappers
  import opened Entities
  import opened Registrations
  import opened Submissions
  import opened Steps
  import opened Runs
  import opened Scenarios

  // ---------- a superseded proof loses its file ----------

  /** The registration after a rejected and a second proof. */
  function TwiceProved(user: Id, n: Names): Registration {
    var once := WithProof(Entry(user, n.c1), n.f1, Valid(n.f1, n.k1, n.k1), 2);
    WithProof(Decided(once, TREASURER, BLURRED, 3), n.f2, Valid(n.f2, n.k2, n.k2), 4)
  }

  lemma SecondProof(f: Db, user: Id, n: Names) returns (steps: seq<Step>)
    requires Playground(f, user, n)
    ensures ValidRun(f, steps)
    ensures
      var db := Run(f, steps);
      && n.r1 in db.registrations && db.registrations[n.r1] == TwiceProved(user, n)
      && n.f1 in db.files && db.files[n.f1].userId == user
  {
    steps := FirstIsProved(f, user, n);
    steps := DecisionNext(f, user, steps, n.r1, BLURRED, 3);
    steps := ProofNext(f, user, steps, n.r1, n.f2, n.k2, 4);
  }

  /** The first proof is rejected, the second waits for its decision, and the user deletes the file of the
      first: the older attempt changes, its reference becomes NULL. */
  lemma {:induction false} SupersededProofChanges(f: Db, user: Id, n: Names) returns (steps: seq<Step>)
    requires Playground(f, user, n)
    ensures Init(f) && ValidRun(f, steps) && steps != []
    ensures n.r1 in Run(f, Before(steps)).registrations && n.r1 in Run(f, steps).registrations
    ensures
      var was, now := Run(f, Before(steps)).registrations[n.r1].attempts, Run(f, steps).registrations[n.r1].attempts;
      && |was| == |now| == 2
      && was[0].proofOfPaymentFileId == Some(n.f1) && now[0] == was[0].(proofOfPaymentFileId := None)
      && now[1] == was[1]
  {
    var before := SecondProof(f, user, n);
    RunExtends(f, before, DeleteFile(n.f1, user));
    steps := before + [DeleteFile(n.f1, user)];
    assert Before(steps) == before;
  }

  // ---------- a work loses its file ----------

  function WorkOf(n: Names): SubmissionDto {
    SubmissionDto(n.r1, "work", None)
  }

  /** The user has paid. */
  lemma FirstIsPaid(f: Db, user: Id, n: Names) returns (steps: seq<Step>)
    requires Playground(f, user, n)
    ensures ValidRun(f, steps)
    ensures
      var db := Run(f, steps);
      && db.users == f.users && db.submissions == map[]
      && n.f2 !in db.files && n.k2 !in db.blobs
      && n.r1 in db.registrations
      && db.registrations[n.r1].status == Verified && db.registrations[n.r1].userId == Some(user)
  {
    steps := FirstIsProved(f, user, n);
    steps := DecisionNext(f, user, steps, n.r1, PAID, 3);
  }

  lemma SubmitEffect(db: Db, user: Id, n: Names, sub: Id)
    requires user in db.users && n.r1 in db.registrations && db.submissions == map[]
    requires db.registrations[n.r1].status == Verified && db.registrations[n.r1].userId == Some(user)
    ensures
      var s := Submit(user, WorkOf(n), Valid(n.f2, n.k2, n.k2), Missing, sub);
      var after := Next(db, s);
      && Accepted(db, s)
      && after.submissions == map[sub := NewSubmission(WorkOf(n), Valid(n.f2, n.k2, n.k2), Missing)]
      && after.registrations == db.registrations && after.teams == db.teams
      && n.f2 in after.files && after.files[n.f2].userId == user
  {
    var db2 := AfterUploads(db, user, Valid(n.f2, n.k2, n.k2), Missing);
    assert !HasSubmission(db2, n.r1);
  }

  lemma WorkIsHandedIn(f: Db, user: Id, n: Names, sub: Id) returns (steps: seq<Step>)
    requires Playground(f, user, n)
    ensures ValidRun(f, steps)
    ensures
      var db := Run(f, steps);
      && db.submissions == map[sub := NewSubmission(WorkOf(n), Valid(n.f2, n.k2, n.k2), Missing)]
      && n.r1 in db.registrations && db.registrations[n.r1].userId == Some(user)
      && n.f2 in db.files && db.files[n.f2].userId == user
  {
    steps := FirstIsPaid(f, user, n);
    SubmitEffect(Run(f, steps), user, n, sub);
    RunExtends(f, steps, Submit(user, WorkOf(n), Valid(n.f2, n.k2, n.k2), Missing, sub));
    steps := steps + [Submit(user, WorkOf(n), Valid(n.f2, n.k2, n.k2), Missing, sub)];
  }

  /** The manager pays, hands in a work, deletes its file through the storage route, and is refused when
      taking the work back: the submission can no longer be deleted by anybody. */
  lemma {:induction false} WorkWithoutFileStays(f: Db, user: Id, n: Names, sub: Id) returns (steps: seq<Step>)
    requires Playground(f, user, n)
    ensures Init(f) && ValidRun(f, steps)
    ensures
      var db := Run(f, steps);
      && sub in db.submissions && db.submissions[sub].registrationId == n.r1
      && n.r1 in db.registrations && Manages(db.teams, db.registrations[n.r1], user)
      && Verdict(db, DeleteSubmission(sub, user)) == Some(FileNotFound)
      && forall u :: !Accepted(db, DeleteSubmission(sub, u))
  {
    var before := WorkIsHandedIn(f, user, n, sub);
    RunExtends(f, before, DeleteFile(n.f2, user));
    steps := before + [DeleteFile(n.f2, user)];
  }
}
