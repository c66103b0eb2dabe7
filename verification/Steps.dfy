/** The festival as a state machine: every request is one step on the database. */
module Steps {
  import opened Wrappers
  import opened Entities
  import opened Teams
  import opened Storage
  import opened Registrations
  import opened Proofs
  import opened Submissions

  /** A request with everything the system supplies to it: the clock and the generated ids.
      `EditUsers` and `EditCompetitions` stand for whatever other modules do to those tables. */
  datatype Step =
    | CreateTeam(leader: Id, name: string, newId: Id)
    | AddMember(leader: Id, email: string)
    | Disband(user: Id)
    | Register(user: Id, dto: RegisterDto, now: Time, newId: Id)
    | UploadProof(reg: Id, user: Id, file: Upload, newId: Id, now: Time)
    | VerifyPayment(reg: Id, treasurer: Id, decision: VerifyDto, now: Time)
    | UploadFile(user: Id, file: Upload)
    | DeleteFile(fileId: Id, user: Id)
    | Submit(user: Id, work: SubmissionDto, file: Upload, originality: Upload, newId: Id)
    | DeleteSubmission(submission: Id, user: Id)
    | EditUsers(users: map<Id, User>)
    | EditCompetitions(competitions: map<Id, Competition>)

  /** The refusal of a request, if it is refused. */
  ghost function Verdict(db: Db, s: Step): Option<Error> {
    match s
    case CreateTeam(leader, name, _) => CreateTeamVerdict(db, leader, name)
    case AddMember(leader, email) => AddMemberVerdict(db, leader, email)
    case Disband(user) => DisbandVerdict(db, user)
    case Register(user, dto, now, _) => RegisterVerdict(db, user, dto, now)
    case UploadProof(reg, user, file, _, _) => UploadVerdict(db, reg, user, file)
    case VerifyPayment(reg, _, decision, _) => VerifyVerdict(db, reg, decision)
    case UploadFile(user, file) => StoreVerdict(db, user, file)
    case DeleteFile(file, user) => DeleteFileVerdict(db, file, user)
    case Submit(user, dto, file, originality, _) => SubmitVerdict(db, user, dto, file, originality)
    case DeleteSubmission(sub, user) => DeleteSubmissionVerdict(db, sub, user)
    case EditUsers(_) => None
    case EditCompetitions(_) => None
  }

  ghost predicate Accepted(db: Db, s: Step) {
    Verdict(db, s).None?
  }

  /** The database after a request. A refused request changes nothing, except that the upload routes may
      leave a stored file behind. */
  ghost function Next(db: Db, s: Step): Db {
    match s
    case UploadProof(reg, user, file, newId, now) => AfterProof(db, reg, user, file, newId, now)
    case UploadFile(user, file) => AfterStore(db, user, file)
    case Submit(user, dto, file, originality, newId) => AfterSubmit(db, user, dto, file, originality, newId)
    case _ => if Accepted(db, s) then Effect(db, s) else db
  }

  /** What an accepted request does, for the routes that store no file. */
  ghost function Effect(db: Db, s: Step): Db
    requires Accepted(db, s)
  {
    match s
    case CreateTeam(leader, name, newId) => db.(teams := db.teams[newId := NewTeam(db, leader, name)])
    case AddMember(leader, email) =>
      var t := TeamOf(db.teams, leader).value;
      db.(teams := db.teams[t := WithMember(db.teams[t], UserByEmail(db.users, email).value)])
    case Disband(user) => DeleteTeam(db, TeamOf(db.teams, user).value)
    case Register(user, dto, _, newId) =>
      Insert(db, newId, NewRegistration(db.competitions[dto.competitionId], user, dto))
    case VerifyPayment(reg, treasurer, decision, now) =>
      db.(registrations := db.registrations[reg := Decided(db.registrations[reg], treasurer, decision, now)])
    case DeleteFile(file, _) => DeleteFileNext(db, file)
    case DeleteSubmission(sub, user) => DeleteSubmissionNext(db, sub, user)
    case EditUsers(users) => db.(users := users)
    case EditCompetitions(competitions) => db.(competitions := competitions)
    case _ => db
  }

  /** A generated file id and blob key are new. */
  ghost predicate FreshFile(db: Db, file: Upload) {
    file.Valid? ==> FileIdUnused(db, file.id) && file.key !in db.blobs
  }

  /** What the environment guarantees: generated ids are new, the upload clock of a registration moves
      forward, and other modules delete no user, competition or wave and keep emails unique. */
  ghost predicate Enabled(db: Db, s: Step) {
    match s
    case CreateTeam(_, _, newId) => newId !in db.teams
    case Register(_, _, _, newId) => newId !in db.registrations
    case UploadProof(reg, _, file, _, now) =>
      && FreshFile(db, file)
      && (reg in db.registrations ==> forall a | a in db.registrations[reg].attempts :: a.uploadedAt < now)
    case UploadFile(_, file) => FreshFile(db, file)
    case Submit(_, _, file, originality, newId) =>
      && FreshFile(db, file) && FreshFile(db, originality)
      && (file.Valid? && originality.Valid? ==> file.id != originality.id && file.key != originality.key)
      && newId !in db.submissions
    case EditUsers(users) => db.users.Keys <= users.Keys && EmailsDistinct(users)
    case EditCompetitions(competitions) =>
      forall c | c in db.competitions :: c in competitions
        && forall w | HasWave(db.competitions[c], w) :: HasWave(competitions[c], w)
    case _ => true
  }

  /** What every reachable database satisfies. */
  ghost predicate Inv(db: Db) {
    && EmailsDistinct(db.users)
    && RosterInv(db.users, db.teams)
    && RegistrationInv(db)
    && SubmissionInv(db)
    && FileInv(db.users, db.files, db.blobs)
    && ProofInv(db)
  }

  /** A festival before its first request: accounts and competitions, nothing else. */
  ghost predicate Init(db: Db) {
    && EmailsDistinct(db.users)
    && db.teams == map[] && db.registrations == map[] && db.submissions == map[] && db.files == map[]
  }

  lemma InitHolds(db: Db)
    requires Init(db)
    ensures Inv(db)
  {
  }

  // ---------- each kind of step keeps the invariant ----------

  /** The proofs keep their files as long as managers and files persist. */
  lemma ProofsSurvive(db: Db, db': Db)
    requires ProofInv(db) && RegistrationsPersist(db, db') && ProofsPersist(db, db')
    ensures ProofInv(db')
  {
    forall r, f | r in db'.registrations && Names(db'.registrations[r], f)
      ensures f in db'.files && Manages(db'.teams, db'.registrations[r], db'.files[f].userId)
      ensures !NamedByWork(db'.submissions, f)
    {
      assert Names(db.registrations[r], f);
    }
  }

  /** Everything but submissions and proofs holds again, and nothing they rely on has gone. */
  lemma WorksAndProofsComeAlong(db: Db, db': Db)
    requires Inv(db)
    requires EmailsDistinct(db'.users) && RosterInv(db'.users, db'.teams) && FileInv(db'.users, db'.files, db'.blobs)
    requires RegistrationInv(db') && RegistrationsPersist(db, db') && WorksPersist(db, db') && ProofsPersist(db, db')
    ensures Inv(db')
  {
    SubmissionsSurvive(db, db');
    ProofsSurvive(db, db');
  }

  /** Same files and submissions, so nothing happens to a work by itself. */
  lemma WorksUntouched(db: Db, db': Db)
    requires db'.files == db.files && db'.submissions == db.submissions
    ensures WorksPersist(db, db')
  {
  }

  /** Files and submissions stay, and no registration gets a proof. */
  lemma ProofsUntouched(db: Db, db': Db)
    requires db'.files == db.files && db'.submissions == db.submissions
    requires forall r | r in db'.registrations ::
               || (r in db.registrations && db'.registrations[r].attempts == db.registrations[r].attempts)
               || db'.registrations[r].attempts == []
    ensures ProofsPersist(db, db')
  {
    forall r, f | r in db'.registrations && Names(db'.registrations[r], f)
      ensures r in db.registrations && Names(db.registrations[r], f)
    {
    }
  }

  lemma InsertPersists(db: Db, id: Id, row: Registration)
    requires id !in db.registrations
    ensures RegistrationsPersist(db, Insert(db, id, row))
  {
  }

  lemma RewritePersists(db: Db, reg: Id, row: Registration)
    requires reg in db.registrations && row.status != PendingPayment
    requires row == db.registrations[reg].(status := row.status, attempts := row.attempts)
    ensures RegistrationsPersist(db, db.(registrations := db.registrations[reg := row]))
  {
  }

  /** Leaders stay, so managers stay. */
  lemma LeadersPersist(db: Db, db': Db)
    requires db'.registrations == db.registrations
    requires forall r | r in db.registrations && db.registrations[r].teamId.Some? ::
      var t := db.registrations[r].teamId.value;
      t in db.teams ==> t in db'.teams && db'.teams[t].leaderId == db.teams[t].leaderId
    ensures RegistrationsPersist(db, db')
  {
  }

  lemma TeamsGrowKeepsRest(db: Db, db': Db)
    requires Inv(db)
    requires db' == db.(teams := db'.teams)
    requires RosterInv(db.users, db'.teams)
    requires forall t | t in db.teams :: t in db'.teams && db'.teams[t].leaderId == db.teams[t].leaderId
    ensures Inv(db')
  {
    RegistrationsSurvive(db, db');
    LeadersPersist(db, db');
    WorksUntouched(db, db');
    ProofsUntouched(db, db');
    WorksAndProofsComeAlong(db, db');
  }

  /** The cascade of a team delete takes along everything that refers to the team, so every rule holds
      for what is left, whether or not the team was registered. */
  lemma {:induction false} DeleteTeamKeepsInv(db: Db, t: Id)
    requires Inv(db)
    ensures Inv(DeleteTeam(db, t))
  {
    CascadeKeepsRows(db, t);
    CascadeKeepsWorks(db, t);
    CascadeKeepsProofs(db, t);
  }

  lemma CascadeKeepsRows(db: Db, t: Id)
    requires RegistrationInv(db)
    ensures RegistrationInv(DeleteTeam(db, t))
  {
    var db' := DeleteTeam(db, t);
    forall r | r in db'.registrations ensures RowOk(db', db'.registrations[r]) {
      assert RowOk(db, db.registrations[r]);
    }
  }

  lemma CascadeKeepsWorks(db: Db, t: Id)
    requires SubmissionInv(db)
    ensures SubmissionInv(DeleteTeam(db, t))
  {
    var db' := DeleteTeam(db, t);
    forall s | s in db'.submissions ensures SubmissionOk(db', db'.submissions[s]) {
      assert SubmissionOk(db, db.submissions[s]);
    }
  }

  lemma CascadeKeepsProofs(db: Db, t: Id)
    requires ProofInv(db)
    ensures ProofInv(DeleteTeam(db, t))
  {
    var db' := DeleteTeam(db, t);
    forall r, f | r in db'.registrations && Names(db'.registrations[r], f)
      ensures f in db'.files && Manages(db'.teams, db'.registrations[r], db'.files[f].userId)
      ensures !NamedByWork(db'.submissions, f)
    {
      assert Names(db.registrations[r], f);
    }
  }

  lemma InsertRowKeepsInv(db: Db, id: Id, row: Registration)
    requires Inv(db) && id !in db.registrations
    requires row.userId.Some? <==> row.teamId.None?
    requires row.status == PendingPayment && row.attempts == []
    requires row.competitionId in db.competitions && HasWave(db.competitions[row.competitionId], row.waveId)
    requires InsertAccepted(db, row)
    ensures Inv(Insert(db, id, row))
  {
    InsertKeepsRegistrations(db, id, row);
    InsertPersists(db, id, row);
    WorksUntouched(db, Insert(db, id, row));
    ProofsUntouched(db, Insert(db, id, row));
    WorksAndProofsComeAlong(db, Insert(db, id, row));
  }

  lemma RegisterKeepsInv(db: Db, user: Id, dto: RegisterDto, now: Time, newId: Id)
    requires Inv(db) && RegisterVerdict(db, user, dto, now).None? && newId !in db.registrations
    ensures Inv(Insert(db, newId, NewRegistration(db.competitions[dto.competitionId], user, dto)))
  {
    InsertRowKeepsInv(db, newId, NewRegistration(db.competitions[dto.competitionId], user, dto));
  }

  lemma StoreKeepsInv(db: Db, user: Id, file: Upload)
    requires Inv(db) && FreshFile(db, file)
    ensures Inv(AfterStore(db, user, file))
  {
    StoreKeepsFiles(db, user, file);
    StoreKeepsSubmissions(db, user, file);
    var db' := AfterStore(db, user, file);
    RegistrationsSurvive(db, db');
    StoreKeepsProofs(db, user, file);
  }

  lemma StoreKeepsProofs(db: Db, user: Id, file: Upload)
    requires ProofInv(db) && FreshFile(db, file)
    ensures ProofInv(AfterStore(db, user, file))
  {
    var db' := AfterStore(db, user, file);
    forall r, f | r in db'.registrations && Names(db'.registrations[r], f)
      ensures f in db'.files && Manages(db'.teams, db'.registrations[r], db'.files[f].userId)
      ensures !NamedByWork(db'.submissions, f)
    {
      assert Names(db.registrations[r], f);
    }
  }

  /** The file that a row may refer to besides the files it refers to already. */
  ghost predicate MayProve(db: Db, reg: Id, file: Id)
    requires reg in db.registrations
  {
    && file in db.files && Manages(db.teams, db.registrations[reg], db.files[file].userId)
    && !NamedByWork(db.submissions, file)
  }

  lemma RewriteKeepsProofs(db: Db, reg: Id, row: Registration)
    requires ProofInv(db) && reg in db.registrations
    requires row == db.registrations[reg].(status := row.status, attempts := row.attempts)
    requires forall f | Names(row, f) :: Names(db.registrations[reg], f) || MayProve(db, reg, f)
    ensures ProofInv(db.(registrations := db.registrations[reg := row]))
  {
    var db' := db.(registrations := db.registrations[reg := row]);
    forall r, f | r in db'.registrations && Names(db'.registrations[r], f)
      ensures f in db'.files && Manages(db'.teams, db'.registrations[r], db'.files[f].userId)
      ensures !NamedByWork(db'.submissions, f)
    {
      if r != reg { assert Names(db.registrations[r], f); }
    }
  }

  lemma RewriteKeepsInv(db: Db, reg: Id, row: Registration)
    requires Inv(db) && reg in db.registrations && Coupled(row)
    requires row == db.registrations[reg].(status := row.status, attempts := row.attempts)
    requires row.status != PendingPayment
    requires forall f | Names(row, f) :: Names(db.registrations[reg], f) || MayProve(db, reg, f)
    ensures Inv(db.(registrations := db.registrations[reg := row]))
  {
    var db' := db.(registrations := db.registrations[reg := row]);
    RewriteKeepsRegistrations(db, reg, row);
    RewritePersists(db, reg, row);
    WorksUntouched(db, db');
    SubmissionsSurvive(db, db');
    RewriteKeepsProofs(db, reg, row);
  }

  lemma ProofKeepsInv(db: Db, reg: Id, user: Id, file: Upload, newId: Id, now: Time)
    requires Inv(db) && Enabled(db, UploadProof(reg, user, file, newId, now))
    ensures Inv(AfterProof(db, reg, user, file, newId, now))
  {
    if ProofVerdict(db, reg, user).None? {
      var db1 := AfterStore(db, user, file);
      StoreKeepsInv(db, user, file);
      if UploadVerdict(db, reg, user, file).None? {
        UploadKeepsCoupling(db1.registrations[reg], newId, file, now);
        NewProofIsOk(db, reg, user, file, newId, now);
        RewriteKeepsInv(db1, reg, WithProof(db1.registrations[reg], newId, file, now));
      }
    }
  }

  /** The file of an accepted proof is stored for the manager who sends it, and no work names it. */
  lemma NewProofIsOk(db: Db, reg: Id, user: Id, file: Upload, newId: Id, now: Time)
    requires UploadVerdict(db, reg, user, file).None? && FreshFile(db, file)
    ensures
      var db1 := AfterStore(db, user, file);
      var r := db.registrations[reg];
      forall f | Names(WithProof(r, newId, file, now), f) :: Names(r, f) || MayProve(db1, reg, f)
  {
    forall f { WithProofNames(db.registrations[reg], newId, file, now, f); }
    assert AfterStore(db, user, file).files[file.id].userId == user;
  }

  lemma VerifyKeepsInv(db: Db, reg: Id, treasurer: Id, decision: VerifyDto, now: Time)
    requires Inv(db) && VerifyVerdict(db, reg, decision).None?
    ensures Inv(Effect(db, VerifyPayment(reg, treasurer, decision, now)))
  {
    var row := Decided(db.registrations[reg], treasurer, decision, now);
    DecisionKeepsCoupling(db.registrations[reg], treasurer, decision, now);
    forall f ensures Names(row, f) <==> Names(db.registrations[reg], f) {
      DecidedNames(db.registrations[reg], treasurer, decision, now, f);
    }
    RewriteKeepsInv(db, reg, row);
  }

  lemma UploadsKeepInv(db: Db, user: Id, file: Upload, originality: Upload)
    requires Inv(db) && FreshFile(db, file) && FreshFile(db, originality)
    requires file.Valid? && originality.Valid? ==> file.id != originality.id && file.key != originality.key
    ensures Inv(AfterUploads(db, user, file, originality))
  {
    StoreKeepsInv(db, user, file);
    var db1 := AfterStore(db, user, file);
    if StoreVerdict(db, user, file).None? {
      StoreKeepsInv(db1, user, originality);
    }
  }

  lemma InsertSubmissionKeepsInv(db: Db, newId: Id, sub: Submission)
    requires Inv(db) && newId !in db.submissions
    requires SubmissionOk(db, sub) && !HasSubmission(db, sub.registrationId)
    requires forall r | r in db.registrations :: !Names(db.registrations[r], sub.storedFileId.value)
    ensures Inv(db.(submissions := db.submissions[newId := sub]))
  {
    InsertKeepsSubmissions(db, newId, sub);
    RegistrationsSurvive(db, db.(submissions := db.submissions[newId := sub]));
    InsertSubmissionKeepsProofs(db, newId, sub);
  }

  lemma InsertSubmissionKeepsProofs(db: Db, newId: Id, sub: Submission)
    requires ProofInv(db) && sub.storedFileId.Some?
    requires forall r | r in db.registrations :: !Names(db.registrations[r], sub.storedFileId.value)
    ensures ProofInv(db.(submissions := db.submissions[newId := sub]))
  {
    var submissions := db.submissions[newId := sub];
    forall r, f | r in db.registrations && Names(db.registrations[r], f) ensures !NamedByWork(submissions, f) {
      assert !NamedByWork(db.submissions, f);
    }
  }

  /** The file of a new work is new, so no proof refers to it. */
  lemma NewFileIsNoProof(db: Db, user: Id, file: Upload, originality: Upload)
    requires ProofInv(db) && file.Valid? && FreshFile(db, file)
    ensures
      var db2 := AfterUploads(db, user, file, originality);
      forall r | r in db2.registrations :: !Names(db2.registrations[r], file.id)
  {
    forall r | r in db.registrations ensures !Names(db.registrations[r], file.id) {
    }
  }

  /** The row of an accepted submission: its file is stored for the manager who hands it in. */
  lemma AcceptedWorkIsOk(db: Db, user: Id, dto: SubmissionDto, file: Upload, originality: Upload)
    requires SubmitVerdict(db, user, dto, file, originality).None?
    requires originality.Valid? ==> file.Valid? && file.id != originality.id
    ensures file.Valid?
    ensures SubmissionOk(AfterUploads(db, user, file, originality), NewSubmission(dto, file, originality))
    ensures !HasSubmission(AfterUploads(db, user, file, originality), dto.registrationId)
  {
    assert AfterUploads(db, user, file, originality).files[file.id].userId == user;
  }

  lemma SubmitKeepsInv(db: Db, user: Id, dto: SubmissionDto, file: Upload, originality: Upload, newId: Id)
    requires Inv(db) && Enabled(db, Submit(user, dto, file, originality, newId))
    ensures Inv(AfterSubmit(db, user, dto, file, originality, newId))
  {
    UploadsKeepInv(db, user, file, originality);
    if SubmitVerdict(db, user, dto, file, originality).None? {
      var db2 := AfterUploads(db, user, file, originality);
      AcceptedWorkIsOk(db, user, dto, file, originality);
      NewFileIsNoProof(db, user, file, originality);
      InsertSubmissionKeepsInv(db2, newId, NewSubmission(dto, file, originality));
    }
  }

  lemma DeleteFileKeepsInv(db: Db, file: Id)
    requires Inv(db) && file in db.files
    ensures Inv(DeleteFileNext(db, file))
  {
    DeleteFileKeepsFiles(db, file);
    DeleteFileKeepsSubmissions(db, file);
    DeleteFileKeepsRows(db, file);
    SameRowsKeepRegistrations(db, DeleteFileNext(db, file));
    DeleteFileKeepsProofs(db, file);
  }

  lemma DeleteFileKeepsProofs(db: Db, file: Id)
    requires ProofInv(db) && file in db.files
    ensures ProofInv(DeleteFileNext(db, file))
  {
    var db' := DeleteFileNext(db, file);
    forall r, f | r in db'.registrations && Names(db'.registrations[r], f)
      ensures f in db'.files && Manages(db'.teams, db'.registrations[r], db'.files[f].userId)
      ensures !NamedByWork(db'.submissions, f)
    {
      NamesAfterDelete(db, file, r, f);
    }
  }

  lemma DropSubmissionKeepsInv(db: Db, sub: Id)
    requires Inv(db)
    ensures Inv(db.(submissions := db.submissions - {sub}))
  {
    var db' := db.(submissions := db.submissions - {sub});
    SubmissionsSurvive(db, db');
    RegistrationsSurvive(db, db');
    ProofsSurvive(db, db');
  }

  lemma {:induction false} DeleteSubmissionKeepsInv(db: Db, sub: Id, user: Id)
    requires Inv(db) && DeleteSubmissionVerdict(db, sub, user).None?
    ensures Inv(DeleteSubmissionNext(db, sub, user))
  {
    assert SubmissionOk(db, db.submissions[sub]);
    var file := db.submissions[sub].storedFileId.value;
    DeleteFileKeepsInv(db, file);
    DropSubmissionKeepsInv(DeleteFileNext(db, file), sub);
  }

  lemma EditKeepsInv(db: Db, users: map<Id, User>, competitions: map<Id, Competition>)
    requires Inv(db)
    requires Enabled(db, EditUsers(users)) && Enabled(db, EditCompetitions(competitions))
    ensures Inv(db.(users := users, competitions := competitions))
  {
    var db' := db.(users := users, competitions := competitions);
    RegistrationsSurvive(db, db');
    LeadersPersist(db, db');
    WorksUntouched(db, db');
    ProofsUntouched(db, db');
    WorksAndProofsComeAlong(db, db');
  }

  /** Every request, accepted or refused, keeps the invariant. */
  lemma {:induction false} StepKeepsInv(db: Db, s: Step)
    requires Inv(db) && Enabled(db, s)
    ensures Inv(Next(db, s))
  {
    match s
    case UploadProof(reg, user, file, newId, now) => ProofKeepsInv(db, reg, user, file, newId, now);
    case UploadFile(user, file) => StoreKeepsInv(db, user, file);
    case Submit(user, dto, file, originality, newId) => SubmitKeepsInv(db, user, dto, file, originality, newId);
    case EditUsers(users) => EditKeepsInv(db, users, db.competitions);
    case EditCompetitions(competitions) => EditKeepsInv(db, db.users, competitions);
    case _ =>
      if Accepted(db, s) { EffectKeepsInv(db, s); }
  }

  lemma EffectKeepsInv(db: Db, s: Step)
    requires Inv(db) && Enabled(db, s) && Accepted(db, s)
    requires s.CreateTeam? || s.AddMember? || s.Disband? || s.Register? || s.VerifyPayment? || s.DeleteFile?
             || s.DeleteSubmission?
    ensures Inv(Effect(db, s))
  {
    if s.CreateTeam? || s.AddMember? || s.Disband? {
      TeamEffectKeepsInv(db, s);
    } else {
      RowEffectKeepsInv(db, s);
    }
  }

  lemma TeamEffectKeepsInv(db: Db, s: Step)
    requires Inv(db) && Enabled(db, s) && Accepted(db, s) && (s.CreateTeam? || s.AddMember? || s.Disband?)
    ensures Inv(Effect(db, s))
  {
    match s
    case CreateTeam(leader, name, newId) =>
      CreateKeepsRosters(db, leader, name, newId);
      TeamsGrowKeepsRest(db, Effect(db, s));
    case AddMember(leader, email) =>
      AddKeepsRosters(db, leader, email);
      TeamsGrowKeepsRest(db, Effect(db, s));
    case Disband(user) => DeleteTeamKeepsInv(db, TeamOf(db.teams, user).value);
  }

  lemma RowEffectKeepsInv(db: Db, s: Step)
    requires Inv(db) && Enabled(db, s) && Accepted(db, s)
    requires s.Register? || s.VerifyPayment? || s.DeleteFile? || s.DeleteSubmission?
    ensures Inv(Effect(db, s))
  {
    match s
    case Register(user, dto, now, newId) => RegisterKeepsInv(db, user, dto, now, newId);
    case VerifyPayment(reg, treasurer, decision, now) => VerifyKeepsInv(db, reg, treasurer, decision, now);
    case DeleteFile(file, _) => DeleteFileKeepsInv(db, file);
    case DeleteSubmission(sub, user) => DeleteSubmissionKeepsInv(db, sub, user);
  }

  // ---------- which tables a request can change ----------

  lemma RegistrationsUntouched(db: Db, s: Step)
    requires !s.Register? && !s.UploadProof? && !s.VerifyPayment? && !s.DeleteFile? && !s.DeleteSubmission?
    ensures Next(db, s).registrations == db.registrations
  {
    match s
    case CreateTeam(_, _, _) =>
    case AddMember(_, _) =>
    case Disband(user) =>
      if Accepted(db, s) { CascadeIsIdleIffUnregistered(db, TeamOf(db.teams, user).value); }
    case UploadFile(_, _) =>
    case Submit(_, _, _, _, _) =>
    case EditUsers(_) =>
    case EditCompetitions(_) =>
  }

  /** A request other than the three that write registrations clears at most references to files. */
  lemma RowsUntouched(db: Db, s: Step)
    requires !s.Register? && !s.UploadProof? && !s.VerifyPayment?
    ensures SameRows(db, Next(db, s))
  {
    if s.DeleteFile? {
      if Accepted(db, s) { DeleteFileKeepsRows(db, s.fileId); }
    } else if s.DeleteSubmission? {
      if Accepted(db, s) && db.submissions[s.submission].storedFileId.Some? {
        DeleteFileKeepsRows(db, db.submissions[s.submission].storedFileId.value);
      }
    } else {
      RegistrationsUntouched(db, s);
    }
  }

  lemma TeamsUntouched(db: Db, s: Step)
    requires !s.CreateTeam? && !s.AddMember? && !s.Disband?
    ensures Next(db, s).teams == db.teams
  {
    match s
    case Register(_, _, _, _) =>
    case UploadProof(_, _, _, _, _) =>
    case VerifyPayment(_, _, _, _) =>
    case UploadFile(_, _) =>
    case DeleteFile(_, _) =>
    case Submit(_, _, _, _, _) =>
    case DeleteSubmission(_, _) =>
    case EditUsers(_) =>
    case EditCompetitions(_) =>
  }

  lemma SubmissionsUntouched(db: Db, s: Step)
    requires !s.Submit? && !s.DeleteSubmission?
    ensures Next(db, s).submissions == db.submissions
  {
    match s
    case CreateTeam(_, _, _) =>
    case AddMember(_, _) =>
    case Disband(user) =>
      if Accepted(db, s) { CascadeIsIdleIffUnregistered(db, TeamOf(db.teams, user).value); }
    case Register(_, _, _, _) =>
    case UploadProof(_, _, _, _, _) =>
    case VerifyPayment(_, _, _, _) =>
    case UploadFile(_, _) =>
    case DeleteFile(_, _) =>
    case EditUsers(_) =>
    case EditCompetitions(_) =>
  }

  /** What an accepted payment request does: it rewrites status and attempts of its own row. */
  lemma PaymentRewritesRow(db: Db, s: Step)
    requires s.UploadProof? || s.VerifyPayment?
    ensures Accepted(db, s) ==>
      && s.reg in db.registrations
      && Next(db, s).registrations == db.registrations[s.reg := Paid(db.registrations[s.reg], s)]
    ensures !Accepted(db, s) ==> Next(db, s).registrations == db.registrations
  {
  }

  function Paid(r: Registration, s: Step): Registration
    requires s.UploadProof? || s.VerifyPayment?
  {
    match s
    case UploadProof(_, _, file, newId, now) => if file.Valid? then WithProof(r, newId, file, now) else r
    case VerifyPayment(_, treasurer, decision, now) =>
      if r.attempts != [] then Decided(r, treasurer, decision, now) else r
  }

  /** No competition or wave disappears. */
  lemma CompetitionsPersist(db: Db, s: Step)
    requires Enabled(db, s)
    ensures forall c | c in db.competitions :: c in Next(db, s).competitions
              && forall w | HasWave(db.competitions[c], w) :: HasWave(Next(db, s).competitions[c], w)
  {
    if !s.EditCompetitions? { CompetitionsUntouched(db, s); }
  }

  lemma CompetitionsUntouched(db: Db, s: Step)
    requires !s.EditCompetitions?
    ensures Next(db, s).competitions == db.competitions
  {
    match s
    case CreateTeam(_, _, _) =>
    case AddMember(_, _) =>
    case Disband(_) =>
    case Register(_, _, _, _) =>
    case UploadProof(_, _, _, _, _) =>
    case VerifyPayment(_, _, _, _) =>
    case UploadFile(_, _) =>
    case DeleteFile(_, _) =>
    case Submit(_, _, _, _, _) =>
    case DeleteSubmission(_, _) =>
    case EditUsers(_) =>
  }

  /** Every team after a request is a new one, or an old one with at most some newcomers. */
  lemma TeamsOnlyGrow(db: Db, s: Step)
    ensures forall t | t in Next(db, s).teams ::
              (s.CreateTeam? && t == s.newId) || (t in db.teams && RosterGrows(db.teams[t], Next(db, s).teams[t]))
  {
    if !s.CreateTeam? && !s.AddMember? && !s.Disband? { TeamsUntouched(db, s); }
  }
}
