/** What runs never lose: registrations, their decided attempts, and the teams behind them. */
module History {
  import opened Wrappers
  import opened Entities
  import opened Teams
  import opened Storage
  import opened Registrations
  import opened Proofs
  import opened Submissions
  import opened Steps
  import opened Runs

  // ---------- one registration over time ----------

  /** A decision may replace status, reason, verifier and time of an attempt, never the proof itself; the
      reference to the stored file can be cleared, never changed. */
  predicate SameProof(a: Attempt, b: Attempt) {
    && a.id == b.id && a.proofOfPaymentUrl == b.proofOfPaymentUrl && a.uploadedAt == b.uploadedAt
    && (b.proofOfPaymentFileId == a.proofOfPaymentFileId || b.proofOfPaymentFileId == None)
  }

  /** The row keeps its identity; attempts are only appended; all but the newest are frozen, up to a
      reference whose file is deleted. */
  predicate Grows(r: Registration, r': Registration) {
    && r' == r.(status := r'.status, attempts := r'.attempts)
    && |r.attempts| <= |r'.attempts|
    && (forall i | 0 <= i < |r.attempts| :: SameProof(r.attempts[i], r'.attempts[i]))
    && (forall i | 0 <= i < |r.attempts| - 1 :: SameOrDetached(r.attempts[i], r'.attempts[i]))
  }

  ghost predicate RegistrationsGrow(db: Db, db': Db) {
    forall r | r in db.registrations :: r in db'.registrations && Grows(db.registrations[r], db'.registrations[r])
  }

  ghost predicate RegisteredTeamsGrow(db: Db, db': Db) {
    forall t | t in db.teams && IsRegistered(db.registrations, t) ::
      && t in db'.teams && RosterGrows(db.teams[t], db'.teams[t])
      && IsRegistered(db'.registrations, t)
  }

  // ---------- one request ----------

  lemma RewriteGrows(db: Db, db': Db, reg: Id, row: Registration)
    requires reg in db.registrations && db'.registrations == db.registrations[reg := row]
    requires Grows(db.registrations[reg], row)
    ensures RegistrationsGrow(db, db')
  {
  }

  lemma SameRowsGrow(db: Db, db': Db)
    requires SameRows(db, db')
    ensures RegistrationsGrow(db, db')
  {
  }

  lemma RegisterGrows(db: Db, s: Step)
    requires s.Register? && s.newId !in db.registrations
    ensures RegistrationsGrow(db, Next(db, s))
  {
  }

  lemma PaidGrows(r: Registration, s: Step)
    requires s.UploadProof? || s.VerifyPayment?
    ensures Grows(r, Paid(r, s))
  {
  }

  lemma StepGrowsRegistrations(db: Db, s: Step)
    requires Enabled(db, s)
    ensures RegistrationsGrow(db, Next(db, s))
  {
    if s.UploadProof? || s.VerifyPayment? {
      PaymentRewritesRow(db, s);
      if Accepted(db, s) {
        PaidGrows(db.registrations[s.reg], s);
        RewriteGrows(db, Next(db, s), s.reg, Paid(db.registrations[s.reg], s));
      }
    } else if s.Register? {
      RegisterGrows(db, s);
    } else {
      RowsUntouched(db, s);
      SameRowsGrow(db, Next(db, s));
    }
  }

  lemma StillRegistered(db: Db, db': Db, t: Id)
    requires RegistrationsGrow(db, db') && IsRegistered(db.registrations, t)
    ensures IsRegistered(db'.registrations, t)
  {
    var r :| r in db.registrations && db.registrations[r].teamId == Some(t);
    assert db'.registrations[r].teamId == Some(t);
  }

  /** Only a disband removes a team, and it does not get through to a registered one. */
  lemma RegisteredTeamStays(db: Db, s: Step, t: Id)
    requires t in db.teams && IsRegistered(db.registrations, t)
    ensures t in Next(db, s).teams
  {
    if !s.CreateTeam? && !s.AddMember? && !s.Disband? { TeamsUntouched(db, s); }
  }

  lemma StepGrowsTeams(db: Db, s: Step)
    requires Enabled(db, s) && RegistrationsGrow(db, Next(db, s))
    ensures RegisteredTeamsGrow(db, Next(db, s))
  {
    TeamsOnlyGrow(db, s);
    forall t | t in db.teams && IsRegistered(db.registrations, t)
      ensures t in Next(db, s).teams && RosterGrows(db.teams[t], Next(db, s).teams[t])
      ensures IsRegistered(Next(db, s).registrations, t)
    {
      RegisteredTeamStays(db, s, t);
      StillRegistered(db, Next(db, s), t);
    }
  }

  // ---------- whole runs ----------

  lemma GrowthIsTransitive(a: Db, b: Db, c: Db)
    requires RegistrationsGrow(a, b) && RegistrationsGrow(b, c)
    requires RegisteredTeamsGrow(a, b) && RegisteredTeamsGrow(b, c)
    ensures RegistrationsGrow(a, c) && RegisteredTeamsGrow(a, c)
  {
    forall r | r in a.registrations
      ensures r in c.registrations && Grows(a.registrations[r], c.registrations[r])
    {
      assert Grows(a.registrations[r], b.registrations[r]) && Grows(b.registrations[r], c.registrations[r]);
    }
  }

  /** Between any two points of a run no registration is removed or changes hands, no attempt is removed,
      none changes once a newer one exists, except that it may lose the reference to a deleted file, and
      every registered team is still there with all its people. */
  lemma {:induction false} RunGrows(db: Db, steps: seq<Step>)
    requires ValidRun(db, steps)
    ensures RegistrationsGrow(db, Run(db, steps)) && RegisteredTeamsGrow(db, Run(db, steps))
  {
    if steps != [] {
      var middle := Run(db, Before(steps));
      RunGrows(db, Before(steps));
      StepGrowsRegistrations(middle, Last(steps));
      StepGrowsTeams(middle, Last(steps));
      GrowthIsTransitive(db, middle, Run(db, steps));
    }
  }

  /** What an accepted request of a team has found, and leaves behind. */
  lemma RegisteredTeamHasMinimum(db: Db, s: Step)
    requires Inv(db) && s.Register? && Accepted(db, s)
    requires db.competitions[s.dto.competitionId].participantType.TeamBased?
    ensures
      var t, minimum := s.dto.teamId.value, db.competitions[s.dto.competitionId].minTeamMembers;
      && t in db.teams && db.teams[t].leaderId == s.user
      && (if minimum == 0 then 1 else minimum) <= 1 + |db.teams[t].members|
      && Next(db, s).teams == db.teams && IsRegistered(Next(db, s).registrations, t)
      && s.newId in Next(db, s).registrations && Next(db, s).registrations[s.newId].teamId == Some(t)
  {
    assert Next(db, s).registrations[s.newId].teamId == s.dto.teamId;
  }

  /** A team that registered keeps the minimum it was checked against, whatever happens later, also when
      the minimum itself is edited; and it never outgrows the maximal team size. */
  lemma RegisteredTeamKeepsMinimum(db: Db, s: Step, later: seq<Step>)
    requires Inv(db) && ValidRun(db, [s] + later)
    requires s.Register? && Accepted(db, s) && db.competitions[s.dto.competitionId].participantType.TeamBased?
    ensures
      var final := Run(db, [s] + later);
      var t := s.dto.teamId.value;
      && t in final.teams && final.teams[t].leaderId == s.user
      && (var minimum := db.competitions[s.dto.competitionId].minTeamMembers;
          (if minimum == 0 then 1 else minimum) <= 1 + |db.teams[t].members|)
      && |db.teams[t].members| <= |final.teams[t].members| <= 2
      && s.newId in final.registrations && final.registrations[s.newId].teamId == Some(t)
  {
    RunAppends(db, [s], later);
    var t := s.dto.teamId.value;
    var next := Run(db, [s]);
    assert Before([s]) == [] && next == Next(db, s);
    RegisteredTeamHasMinimum(db, s);
    RunGrows(next, later);
    RunKeepsInv(db, [s] + later);
    assert RosterGrows(next.teams[t], Run(next, later).teams[t]);
    assert TeamOk(Run(db, [s] + later).users, Run(db, [s] + later).teams[t]);
  }

  // ---------- payments over runs ----------

  ghost function Uploads(db: Db, steps: seq<Step>, reg: Id): nat {
    if steps == [] then 0
    else
      var s := Last(steps);
      Uploads(db, Before(steps), reg)
      + if s.UploadProof? && s.reg == reg && Accepted(Run(db, Before(steps)), s) then 1 else 0
  }

  lemma StepCountsAttempts(db: Db, s: Step, reg: Id)
    requires Enabled(db, s)
    ensures reg in db.registrations ==>
      && reg in Next(db, s).registrations
      && |Next(db, s).registrations[reg].attempts| == |db.registrations[reg].attempts|
           + if s.UploadProof? && s.reg == reg && Accepted(db, s) then 1 else 0
    ensures reg !in db.registrations && reg in Next(db, s).registrations ==>
      Next(db, s).registrations[reg].attempts == []
    ensures reg !in db.registrations && s.UploadProof? && s.reg == reg ==> !Accepted(db, s)
  {
    if s.UploadProof? || s.VerifyPayment? {
      PaymentRewritesRow(db, s);
    } else if !s.Register? {
      RowsUntouched(db, s);
    }
  }

  /** A registration has one attempt for each proof that was accepted for it. */
  lemma {:induction false} AttemptsCountUploads(db: Db, steps: seq<Step>, reg: Id)
    requires Init(db) && ValidRun(db, steps)
    ensures Uploads(db, steps, reg) ==
      if reg in Run(db, steps).registrations then |Run(db, steps).registrations[reg].attempts| else 0
  {
    if steps != [] {
      AttemptsCountUploads(db, Before(steps), reg);
      RunGrows(db, Before(steps));
      StepCountsAttempts(Run(db, Before(steps)), Last(steps), reg);
    }
  }

  /** In every reachable database the status follows from the attempts, a rejection is always explained,
      no registration is cancelled, and verify never meets a registration without a proof. */
  lemma {:induction false} StatusFollowsAttempts(db: Db, steps: seq<Step>, reg: Id)
    requires Init(db) && ValidRun(db, steps) && reg in Run(db, steps).registrations
    ensures
      var r := Run(db, steps).registrations[reg];
      && r.status == (if r.attempts == [] then PendingPayment
                      else match LastOf(r.attempts).status
                           case AttemptPending => PendingVerification
                           case AttemptApproved => Verified
                           case AttemptRejected => Rejected)
      && (forall i | 0 <= i < |r.attempts| - 1 :: r.attempts[i].status == AttemptRejected)
      && (forall i | 0 <= i < |r.attempts| :: RejectionExplained(r.attempts[i]))
    ensures forall d :: VerifyVerdict(Run(db, steps), reg, d) != Some(NoProofToVerify)
  {
    InitHolds(db);
    RunKeepsInv(db, steps);
    assert Coupled(Run(db, steps).registrations[reg]);
    forall d { NoProofBranchIsDead(Run(db, steps), reg, d); }
  }

  // ---------- proof files over runs ----------

  /** The request deletes the stored file, on its own and not with a submission. */
  ghost predicate Deletes(db: Db, s: Step, file: Id) {
    s.DeleteFile? && s.fileId == file && Accepted(db, s)
  }

  ghost predicate DeletedDuring(db: Db, steps: seq<Step>, file: Id) {
    steps != [] && (DeletedDuring(db, Before(steps), file) || Deletes(Run(db, Before(steps)), Last(steps), file))
  }

  ghost predicate ClearsReference(db: Db, s: Step, a: Attempt) {
    a.proofOfPaymentFileId.Some? && Deletes(db, s, a.proofOfPaymentFileId.value)
  }

  /** A decision, a new proof or an entry clears nothing. */
  lemma RegistrationStepClearsNothing(db: Db, s: Step, reg: Id, i: nat)
    requires Enabled(db, s) && reg in db.registrations && i < |db.registrations[reg].attempts|
    requires s.Register? || s.UploadProof? || s.VerifyPayment?
    ensures reg in Next(db, s).registrations && i < |Next(db, s).registrations[reg].attempts|
    ensures Next(db, s).registrations[reg].attempts[i].proofOfPaymentFileId
         == db.registrations[reg].attempts[i].proofOfPaymentFileId
  {
    if !s.Register? { PaymentRewritesRow(db, s); }
  }

  lemma DeleteFileClears(db: Db, s: Step, reg: Id, i: nat)
    requires s.DeleteFile? && reg in db.registrations && i < |db.registrations[reg].attempts|
    ensures reg in Next(db, s).registrations && i < |Next(db, s).registrations[reg].attempts|
    ensures
      var was := db.registrations[reg].attempts[i];
      Next(db, s).registrations[reg].attempts[i].proofOfPaymentFileId
        == if ClearsReference(db, s, was) then None else was.proofOfPaymentFileId
  {
    if Accepted(db, s) { DetachedAt(db, s.fileId, reg, i); }
  }

  /** Taking a work back deletes a file, but never that of a proof. */
  lemma OtherStepClearsNothing(db: Db, s: Step)
    requires SubmissionInv(db) && ProofInv(db)
    requires !s.Register? && !s.UploadProof? && !s.VerifyPayment? && !s.DeleteFile?
    ensures Next(db, s).registrations == db.registrations
  {
    if !s.DeleteSubmission? {
      RegistrationsUntouched(db, s);
    } else if Accepted(db, s) {
      assert SubmissionOk(db, db.submissions[s.submission]);
      WorkFileIsUnseen(db, s.submission);
    }
  }

  /** One request clears the reference of an attempt exactly if it deletes the attempt's file. */
  lemma StepClearsReference(db: Db, s: Step, reg: Id, i: nat)
    requires Inv(db) && Enabled(db, s) && reg in db.registrations && i < |db.registrations[reg].attempts|
    ensures reg in Next(db, s).registrations && i < |Next(db, s).registrations[reg].attempts|
    ensures
      var was := db.registrations[reg].attempts[i];
      Next(db, s).registrations[reg].attempts[i].proofOfPaymentFileId
        == if ClearsReference(db, s, was) then None else was.proofOfPaymentFileId
  {
    if s.Register? || s.UploadProof? || s.VerifyPayment? {
      RegistrationStepClearsNothing(db, s, reg, i);
    } else if s.DeleteFile? {
      DeleteFileClears(db, s, reg, i);
    } else {
      OtherStepClearsNothing(db, s);
    }
  }

  /** Over a run an attempt keeps its reference to the stored proof if and only if no accepted request
      deleted that file; nothing else clears it and nothing ever fills it again. */
  lemma {:induction false} ReferenceClearedIff(db: Db, steps: seq<Step>, reg: Id, i: nat)
    requires Inv(db) && ValidRun(db, steps)
    requires reg in db.registrations && i < |db.registrations[reg].attempts|
    ensures
      var final := Run(db, steps).registrations;
      var was := db.registrations[reg].attempts[i].proofOfPaymentFileId;
      && reg in final && i < |final[reg].attempts|
      && final[reg].attempts[i].proofOfPaymentFileId
           == if was.Some? && DeletedDuring(db, steps, was.value) then None else was
  {
    if steps != [] {
      ReferenceClearedIff(db, Before(steps), reg, i);
      RunKeepsInv(db, Before(steps));
      StepClearsReference(Run(db, Before(steps)), Last(steps), reg, i);
    }
  }

  /** In every reachable database the file that an attempt refers to exists, and the one person who can
      delete it on its own is the manager of the registration. */
  lemma {:induction false} ReferencesAreLive(db: Db, steps: seq<Step>, reg: Id, i: nat, user: Id)
    requires Init(db) && ValidRun(db, steps)
    requires reg in Run(db, steps).registrations && i < |Run(db, steps).registrations[reg].attempts|
    ensures
      var final := Run(db, steps);
      var file := final.registrations[reg].attempts[i].proofOfPaymentFileId;
      file.Some? ==>
        && file.value in final.files && final.files[file.value].fileKey in final.blobs
        && (Accepted(final, DeleteFile(file.value, user)) <==> Manages(final.teams, final.registrations[reg], user))
  {
    InitHolds(db);
    RunKeepsInv(db, steps);
    var file := Run(db, steps).registrations[reg].attempts[i].proofOfPaymentFileId;
    if file.Some? { ReferenceIsLive(Run(db, steps), reg, file.value, i, user); }
  }

  lemma ReferenceIsLive(db: Db, reg: Id, file: Id, i: nat, user: Id)
    requires RegistrationInv(db) && ProofInv(db) && FileInv(db.users, db.files, db.blobs) && reg in db.registrations
    requires i < |db.registrations[reg].attempts|
    requires db.registrations[reg].attempts[i].proofOfPaymentFileId == Some(file)
    ensures file in db.files && db.files[file].fileKey in db.blobs
    ensures Accepted(db, DeleteFile(file, user)) <==> Manages(db.teams, db.registrations[reg], user)
  {
    assert Names(db.registrations[reg], file);
    ManagerIsUnique(db, db.registrations[reg]);
  }

  // ---------- submissions over runs ----------

  /** The `n`-th request of the run hands in the work, and the registration is verified at that moment. */
  ghost predicate HandedInAt(db: Db, steps: seq<Step>, n: nat, sub: Id, reg: Id)
    requires n < |steps|
  {
    var s, before := steps[n], Run(db, steps[..n]);
    && s.Submit? && s.newId == sub && s.work.registrationId == reg && Accepted(before, s)
    && reg in before.registrations && before.registrations[reg].status == Verified
  }

  ghost predicate HandedIn(db: Db, steps: seq<Step>, sub: Id, reg: Id) {
    exists n :: 0 <= n < |steps| && HandedInAt(db, steps, n, sub, reg)
  }

  lemma HandedInStays(db: Db, steps: seq<Step>, sub: Id, reg: Id)
    requires steps != [] && HandedIn(db, Before(steps), sub, reg)
    ensures HandedIn(db, steps, sub, reg)
  {
    var n :| 0 <= n < |steps| - 1 && HandedInAt(db, Before(steps), n, sub, reg);
    assert Before(steps)[..n] == steps[..n];
    assert HandedInAt(db, steps, n, sub, reg);
  }

  /** A submission that a request brings in is handed in by it, for a registration verified at that moment. */
  lemma NewSubmissionIsVerified(db: Db, s: Step, sub: Id)
    requires sub in Next(db, s).submissions
    requires sub in db.submissions ==> Next(db, s).submissions[sub] != db.submissions[sub]
    ensures s.Submit? && s.newId == sub && Accepted(db, s)
    ensures
      var reg := Next(db, s).submissions[sub].registrationId;
      s.work.registrationId == reg && reg in db.registrations && db.registrations[reg].status == Verified
  {
    if !s.Submit? && !s.DeleteSubmission? { SubmissionsUntouched(db, s); }
  }

  /** Every submission ever stored was handed in by an accepted request of the run that found its
      registration verified; the registration has left PENDING_PAYMENT for good and has no other. */
  lemma {:induction false} SubmissionsFollowVerification(db: Db, steps: seq<Step>, sub: Id)
    requires Init(db) && ValidRun(db, steps) && sub in Run(db, steps).submissions
    ensures
      var final := Run(db, steps);
      var reg := final.submissions[sub].registrationId;
      && HandedIn(db, steps, sub, reg)
      && reg in final.registrations && final.registrations[reg].status != PendingPayment
      && (forall other | other in final.submissions && final.submissions[other].registrationId == reg :: other == sub)
  {
    InitHolds(db);
    RunKeepsInv(db, steps);
    var final := Run(db, steps);
    var reg := final.submissions[sub].registrationId;
    assert SubmissionOk(final, final.submissions[sub]);
    forall other | other in final.submissions && final.submissions[other].registrationId == reg ensures other == sub {
      assert SameRegistration(final.submissions[other], final.submissions[sub]);
    }
    var earlier := Run(db, Before(steps));
    if sub in earlier.submissions && final.submissions[sub] == earlier.submissions[sub] {
      SubmissionsFollowVerification(db, Before(steps), sub);
      HandedInStays(db, steps, sub, reg);
    } else {
      NewSubmissionIsVerified(earlier, Last(steps), sub);
      assert HandedInAt(db, steps, |steps| - 1, sub, reg);
    }
  }

  // ---------- teams and managers over runs ----------

  /** The `n`-th request of the run is an accepted disband of the team by its leader. */
  ghost predicate DisbandedAt(db: Db, steps: seq<Step>, n: nat, t: Id, leader: Id)
    requires n < |steps|
  {
    var before := Run(db, steps[..n]);
    && steps[n] == Disband(leader) && Accepted(before, steps[n])
    && t in before.teams && before.teams[t].leaderId == leader
  }

  lemma TeamStepStaysOrDisbands(db: Db, s: Step, t: Id)
    requires Enabled(db, s) && t in db.teams
    ensures
      || (t in Next(db, s).teams && Next(db, s).teams[t].leaderId == db.teams[t].leaderId)
      || (s == Disband(db.teams[t].leaderId) && Accepted(db, s))
  {
    TeamsOnlyGrow(db, s);
    if t !in Next(db, s).teams {
      if !s.CreateTeam? && !s.AddMember? && !s.Disband? { TeamsUntouched(db, s); }
    }
  }

  /** Over a run a team disappears only by an accepted disband request of its own leader. */
  lemma {:induction false} OnlyTheLeaderDisbands(db: Db, steps: seq<Step>, t: Id)
    requires ValidRun(db, steps) && t in db.teams
    ensures
      || (t in Run(db, steps).teams && Run(db, steps).teams[t].leaderId == db.teams[t].leaderId)
      || exists n :: 0 <= n < |steps| && DisbandedAt(db, steps, n, t, db.teams[t].leaderId)
  {
    if steps != [] {
      var before, leader, last := Before(steps), db.teams[t].leaderId, |steps| - 1;
      OnlyTheLeaderDisbands(db, before, t);
      assert steps[..last] == before;
      if n :| 0 <= n < last && DisbandedAt(db, before, n, t, leader) {
        assert before[..n] == steps[..n];
        assert DisbandedAt(db, steps, n, t, leader);
      } else {
        TeamStepStaysOrDisbands(Run(db, before), Last(steps), t);
        assert Last(steps) == steps[last];
        assert DisbandedAt(db, steps, last, t, leader) || t in Run(db, steps).teams;
      }
    }
  }

  /** In every reachable database each user is on at most one team, as its leader or as one of its members
      but not both; teams have one to three people and distinct names; and the lookup by user finds exactly
      the team the user is on. */
  lemma {:induction false} EveryUserHasOneTeam(db: Db, steps: seq<Step>, user: Id, t: Id, t': Id)
    requires Init(db) && ValidRun(db, steps)
    requires t in Run(db, steps).teams && t' in Run(db, steps).teams
    ensures
      var teams := Run(db, steps).teams;
      && (OnTeam(teams[t], user) && OnTeam(teams[t'], user) ==> t == t')
      && !(teams[t].leaderId == user && user in teams[t].members)
      && 1 <= Size(teams[t]) <= 3
      && (teams[t].name == teams[t'].name ==> t == t')
      && (TeamOf(teams, user) == Some(t) <==> OnTeam(teams[t], user))
  {
    InitHolds(db);
    RunKeepsInv(db, steps);
    var final := Run(db, steps);
    TeamOfIsUnique(final.users, final.teams, user, t);
    assert SameName(final.teams[t], final.teams[t']) ==> t == t';
  }

  /** Whoever manages a registration manages it for good, and nobody else ever does. */
  lemma {:induction false} ManagerIsFixed(db: Db, steps: seq<Step>, reg: Id, user: Id)
    requires Inv(db) && ValidRun(db, steps) && reg in db.registrations
    ensures reg in Run(db, steps).registrations
    ensures Manages(Run(db, steps).teams, Run(db, steps).registrations[reg], user)
       <==> Manages(db.teams, db.registrations[reg], user)
  {
    RunGrows(db, steps);
    var r := db.registrations[reg];
    assert RowOk(db, r) && Grows(r, Run(db, steps).registrations[reg]);
    if r.teamId.Some? {
      assert IsRegistered(db.registrations, r.teamId.value);
      assert RosterGrows(db.teams[r.teamId.value], Run(db, steps).teams[r.teamId.value]);
    }
  }

  /** In every reachable database the manager of a submission's registration can delete it if and only if
      its main file has not been deleted on its own before; then row, file and blob are gone. */
  lemma {:induction false} ManagerDeletesRowAndFile(db: Db, steps: seq<Step>, sub: Id, user: Id)
    requires Init(db) && ValidRun(db, steps) && sub in Run(db, steps).submissions
    requires
      var final := Run(db, steps);
      var reg := final.submissions[sub].registrationId;
      reg in final.registrations && Manages(final.teams, final.registrations[reg], user)
    ensures
      var final := Run(db, steps);
      var file := final.submissions[sub].storedFileId;
      && file.Some?
      && (Accepted(final, DeleteSubmission(sub, user)) <==> file.value in final.files)
      && (file.value in final.files ==>
            var after := Next(final, DeleteSubmission(sub, user));
            sub !in after.submissions && file.value !in after.files && final.files[file.value].fileKey !in after.blobs)
  {
    InitHolds(db);
    RunKeepsInv(db, steps);
    ManagerDeletes(Run(db, steps), sub, user);
  }

  lemma ManagerDeletes(db: Db, sub: Id, user: Id)
    requires RegistrationInv(db) && SubmissionInv(db) && FileInv(db.users, db.files, db.blobs)
    requires sub in db.submissions
    requires Manages(db.teams, db.registrations[db.submissions[sub].registrationId], user)
    ensures
      var file := db.submissions[sub].storedFileId;
      && file.Some?
      && (Accepted(db, DeleteSubmission(sub, user)) <==> file.value in db.files)
      && (file.value in db.files ==>
            var after := Next(db, DeleteSubmission(sub, user));
            sub !in after.submissions && file.value !in after.files && db.files[file.value].fileKey !in after.blobs)
  {
    assert SubmissionOk(db, db.submissions[sub]);
    ManagerMayDelete(db, sub, user);
    if db.submissions[sub].storedFileId.value in db.files {
      DeleteRemovesRowAndFile(db, sub, user);
    }
  }
}
