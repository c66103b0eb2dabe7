/** The running backend: requests arrive one after another and each is handled by its use case. */
module Backend {
  import opened Wrappers
  import opened Entities
  import opened Steps
  import opened Runs
  import TeamUseCases
  import RegistrationUseCases
  import StorageUseCases
  import SubmissionUseCases
  import D = Database

  method HandleTeam(db: D.Database, s: Step) returns (refused: Option<Error>)
    requires db.Valid() && (s.CreateTeam? || s.AddMember? || s.Disband?)
    modifies db`teams, db`registrations, db`submissions
    ensures refused == Verdict(old(db.View()), s)
    ensures db.View() == Next(old(db.View()), s)
  {
    match s
    case CreateTeam(leader, name, newId) => refused := TeamUseCases.CreateTeam(db, leader, name, newId);
    case AddMember(leader, email) => refused := TeamUseCases.AddMember(db, leader, email);
    case Disband(user) => refused := TeamUseCases.LeaveTeam(db, user);
  }

  method HandleRegistration(db: D.Database, s: Step, load: seq<Attempt> -> seq<Attempt>)
    returns (refused: Option<Error>)
    requires db.Valid() && Enabled(db.View(), s) && RegistrationUseCases.IsRowOrder(load)
    requires s.Register? || s.UploadProof? || s.VerifyPayment?
    modifies db`registrations, db`files, db`blobs
    ensures refused == Verdict(old(db.View()), s)
    ensures db.View() == Next(old(db.View()), s)
  {
    match s
    case Register(user, dto, now, newId) => refused := RegistrationUseCases.Register(db, user, dto, now, newId);
    case UploadProof(reg, user, file, newId, now) =>
      var r := RegistrationUseCases.UploadPaymentProof(db, reg, user, file, newId, now, load);
      refused := RegistrationUseCases.Refusal(r);
    case VerifyPayment(reg, treasurer, decision, now) =>
      var r := RegistrationUseCases.VerifyPayment(db, reg, treasurer, decision, now, load);
      refused := RegistrationUseCases.Refusal(r);
  }

  method HandleFile(db: D.Database, s: Step) returns (refused: Option<Error>)
    requires s.UploadFile? || s.DeleteFile? || s.Submit? || s.DeleteSubmission?
    modifies db`submissions, db`files, db`blobs, db`registrations
    ensures refused == Verdict(old(db.View()), s)
    ensures db.View() == Next(old(db.View()), s)
  {
    match s
    case UploadFile(user, file) => refused := StorageUseCases.UploadFile(db, user, file);
    case DeleteFile(file, user) => refused := StorageUseCases.DeleteStoredFile(db, file, user);
    case Submit(user, dto, work, originality, newId) =>
      refused := SubmissionUseCases.CreateSubmission(db, user, dto, work, originality, newId);
    case DeleteSubmission(sub, user) => refused := SubmissionUseCases.DeleteSubmission(db, sub, user);
  }

  /** One request: its use case refuses it for the stated reason or does what the step says. */
  method Handle(db: D.Database, s: Step, load: seq<Attempt> -> seq<Attempt>) returns (refused: Option<Error>)
    requires db.Valid() && Enabled(db.View(), s) && RegistrationUseCases.IsRowOrder(load)
    modifies db
    ensures db.Valid()
    ensures refused == Verdict(old(db.View()), s)
    ensures db.View() == Next(old(db.View()), s)
  {
    StepKeepsInv(db.View(), s);
    if s.CreateTeam? || s.AddMember? || s.Disband? {
      refused := HandleTeam(db, s);
    } else if s.Register? || s.UploadProof? || s.VerifyPayment? {
      refused := HandleRegistration(db, s, load);
    } else if s.EditUsers? {
      db.users := s.users;
      refused := None;
    } else if s.EditCompetitions? {
      db.competitions := s.competitions;
      refused := None;
    } else {
      refused := HandleFile(db, s);
    }
  }

  /** Any run of requests: what the use cases do one after another is the run of the steps. */
  method HandleAll(db: D.Database, steps: seq<Step>, load: seq<Attempt> -> seq<Attempt>)
    requires db.Valid() && ValidRun(db.View(), steps) && RegistrationUseCases.IsRowOrder(load)
    modifies db
    ensures db.Valid()
    ensures db.View() == Run(old(db.View()), steps)
  {
    for i := 0 to |steps|
      invariant db.Valid()
      invariant db.View() == Run(old(db.View()), steps[..i])
    {
      assert steps == steps[..i + 1] + steps[i + 1..];
      RunAppends(old(db.View()), steps[..i + 1], steps[i + 1..]);
      assert Before(steps[..i + 1]) == steps[..i] && Last(steps[..i + 1]) == steps[i];
      var _ := Handle(db, steps[i], load);
    }
    assert steps[..|steps|] == steps;
  }
}
