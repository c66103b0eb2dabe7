/** What every request of the festival answers and writes, column by column. The verdicts and effects of the
    other modules share their guards; here each is said without them. */
module Answers {
  import opened Wrappers
  import opened Entities
  import opened Teams
  import opened Storage
  import opened Registrations
  import opened Submissions
  import opened Steps
  import Text

  ghost predicate OnSomeTeam(db: Db, user: Id) {
    exists t :: t in db.teams && (db.teams[t].leaderId == user || user in db.teams[t].members)
  }

  // ---------- teams ----------

  lemma CreateTeamAnswer(db: Db, leader: Id, name: string, newId: Id)
    ensures
      var v := Verdict(db, CreateTeam(leader, name, newId));
      && (leader !in db.users ==> v == Some(LeaderNotFound))
      && (leader in db.users ==>
            var school := db.users[leader].institution.text;
            var taken := exists t :: t in db.teams && db.teams[t].name == name;
            && (school == "" ==> v == Some(ProfileIncomplete))
            && (school != "" && OnSomeTeam(db, leader) ==> v == Some(AlreadyInTeam))
            && (school != "" && !OnSomeTeam(db, leader) && taken ==> v == Some(TeamNameTaken))
            && (school != "" && !OnSomeTeam(db, leader) && !taken && |school| > 150 ==> v == Some(SaveFailed))
            && (school != "" && !OnSomeTeam(db, leader) && !taken && |school| <= 150 ==> v == None))
    ensures
      var s := CreateTeam(leader, name, newId);
      Next(db, s) == if Verdict(db, s).Some? then db
                     else db.(teams := db.teams[newId := Team(name, db.users[leader].institution, leader, [])])
  {
    assert HasTeam(db.teams, leader) <==> OnSomeTeam(db, leader);
  }

  /** Whoever leads no team adds nobody. */
  lemma NoLeaderAddsNobody(db: Db, user: Id, email: string)
    requires forall t | t in db.teams :: db.teams[t].leaderId != user
    ensures Verdict(db, AddMember(user, email)) == Some(OnlyLeaderMayAdd)
    ensures Next(db, AddMember(user, email)) == db
  {
  }

  lemma UnknownNewcomer(db: Db, leader: Id, email: string, t: Id)
    requires RosterInv(db.users, db.teams) && t in db.teams && db.teams[t].leaderId == leader
    requires forall u | u in db.users :: db.users[u].email != email
    ensures Verdict(db, AddMember(leader, email)) == Some(NewcomerNotFound)
  {
    TeamOfIsUnique(db.users, db.teams, leader, t);
  }

  /** The leader of the team adds the user with this address. */
  lemma AddMemberAnswer(db: Db, leader: Id, email: string, t: Id, m: Id)
    requires RosterInv(db.users, db.teams) && EmailsDistinct(db.users)
    requires t in db.teams && db.teams[t].leaderId == leader && m in db.users && db.users[m].email == email
    ensures
      var v, team, school := Verdict(db, AddMember(leader, email)), db.teams[t], db.users[m].institution;
      && (m == leader ==> v == Some(AddingOneself))
      && (m != leader && OnSomeTeam(db, m) ==> v == Some(NewcomerInTeam))
      && (m != leader && !OnSomeTeam(db, m) ==>
            && (|team.members| >= 2 ==> v == Some(TeamFull))
            && (|team.members| < 2 && school.text == "" ==> v == Some(NewcomerProfileIncomplete))
            && (|team.members| < 2 && school.text != "" && school.lower != team.institution.lower ==>
                  v == Some(InstitutionMismatch))
            && (|team.members| < 2 && school.text != "" && school.lower == team.institution.lower ==> v == None))
    ensures
      var s := AddMember(leader, email);
      Next(db, s) == if Verdict(db, s).Some? then db
                     else db.(teams := db.teams[t := db.teams[t].(members := db.teams[t].members + [m])])
  {
    TeamOfIsUnique(db.users, db.teams, leader, t);
    assert EmailKnown(db.users, email);
    assert SameEmail(db.users[m], db.users[UserByEmail(db.users, email).value]);
    assert HasTeam(db.teams, m) <==> OnSomeTeam(db, m);
  }

  /** Only the leader of a team without registrations disbands it; the team row goes and nothing else. */
  lemma DisbandAnswer(db: Db, user: Id)
    requires RosterInv(db.users, db.teams)
    ensures
      var v, next := Verdict(db, Disband(user)), Next(db, Disband(user));
      && (!OnSomeTeam(db, user) ==> v == Some(NotInTeam))
      && (OnSomeTeam(db, user) && (forall t | t in db.teams :: db.teams[t].leaderId != user) ==>
            v == Some(OnlyLeaderMayDisband))
      && (forall t | t in db.teams && db.teams[t].leaderId == user ::
            var registered := exists r :: r in db.registrations && db.registrations[r].teamId == Some(t);
            && v == (if registered then Some(TeamIsRegistered) else None)
            && next == if registered then db else db.(teams := db.teams - {t}))
      && (v.Some? ==> next == db)
  {
    assert HasTeam(db.teams, user) <==> OnSomeTeam(db, user);
    forall t | t in db.teams && db.teams[t].leaderId == user
      ensures TeamOf(db.teams, user) == Some(t)
    {
      TeamOfIsUnique(db.users, db.teams, user, t);
    }
    if HasTeam(db.teams, user) { CascadeIsIdleIffUnregistered(db, TeamOf(db.teams, user).value); }
  }

  /** A disband is accepted exactly from the leader of a team that has no registration. */
  lemma DisbandAcceptedIff(db: Db, user: Id)
    requires RosterInv(db.users, db.teams)
    ensures Accepted(db, Disband(user)) <==>
      exists t :: t in db.teams && db.teams[t].leaderId == user
                  && forall r | r in db.registrations :: db.registrations[r].teamId != Some(t)
  {
    DisbandAnswer(db, user);
  }

  /** The cascade removes the team's registrations and their submissions, and leaves every other row. */
  lemma CascadeRemoves(db: Db, t: Id)
    ensures
      var after := DeleteTeam(db, t);
      && after == db.(teams := db.teams - {t}, registrations := after.registrations, submissions := after.submissions)
      && (forall r :: r in after.registrations <==> r in db.registrations && db.registrations[r].teamId != Some(t))
      && (forall r | r in after.registrations :: after.registrations[r] == db.registrations[r])
      && (forall s | s in after.submissions :: s in db.submissions && after.submissions[s] == db.submissions[s])
      && (forall s | s in db.submissions ::
            var reg := db.submissions[s].registrationId;
            s in after.submissions <==> !(reg in db.registrations && db.registrations[reg].teamId == Some(t)))
  {
  }

  // ---------- register ----------

  /** The registration counts for the user: not cancelled or rejected, and the user owns it, leads its team
      or is a member of it. */
  ghost predicate Counts(db: Db, user: Id, r: Id) {
    && r in db.registrations
    && var row := db.registrations[r];
       && row.status != Cancelled && row.status != Rejected
       && (row.userId == Some(user)
           || exists t :: t in db.teams && row.teamId == Some(t)
                          && (db.teams[t].leaderId == user || user in db.teams[t].members))
  }

  ghost predicate HasThree(db: Db, user: Id) {
    |set r | r in db.registrations && Counts(db, user, r)| >= 3
  }

  lemma CountsIff(db: Db, user: Id)
    ensures forall r :: r in ActiveRegs(db, user) <==> Counts(db, user, r)
    ensures QuotaFull(db, user) <==> HasThree(db, user)
  {
    assert ActiveRegs(db, user) == set r | r in db.registrations && Counts(db, user, r);
  }

  /** The first wave of the competition with this id. */
  ghost predicate IsWaveOf(c: Competition, wave: Id, i: int) {
    0 <= i < |c.waves| && c.waves[i].id == wave && forall j | 0 <= j < i :: c.waves[j].id != wave
  }

  lemma {:induction false} FirstWaveIsFound(waves: seq<Wave>, wave: Id, i: nat)
    requires i < |waves| && waves[i].id == wave && forall j | 0 <= j < i :: waves[j].id != wave
    ensures FindWave(waves, wave) == Some(waves[i])
  {
    if i > 0 { FirstWaveIsFound(waves[1..], wave, i - 1); }
  }

  predicate HasTeamId(dto: RegisterDto) {
    dto.teamId.Some? && dto.teamId.value.text != ""
  }

  /** The competition has a row of this team, or of this user. */
  ghost predicate Registered(db: Db, dto: RegisterDto, user: Option<Id>, team: Option<Id>) {
    exists r :: r in db.registrations && db.registrations[r].competitionId == dto.competitionId
                && ((user.Some? && db.registrations[r].userId == user)
                    || (team.Some? && db.registrations[r].teamId == team))
  }

  lemma RegisteredIff(db: Db, dto: RegisterDto, row: Registration)
    requires row.competitionId == dto.competitionId
    ensures ClashesWithTable(db.registrations, row) <==> Registered(db, dto, row.userId, row.teamId)
  {
    if r :| r in db.registrations && Clash(db.registrations[r], row) {
    }
    if Registered(db, dto, row.userId, row.teamId) {
      var r :| r in db.registrations && db.registrations[r].competitionId == dto.competitionId
               && ((row.userId.Some? && db.registrations[r].userId == row.userId)
                   || (row.teamId.Some? && db.registrations[r].teamId == row.teamId));
      assert Clash(db.registrations[r], row);
    }
  }

  /** Refusals before the wave is open. */
  lemma NotOpenAnswer(db: Db, user: Id, dto: RegisterDto, now: Time, newId: Id)
    ensures
      var v := Verdict(db, Register(user, dto, now, newId));
      && (user.text == "" ==> v == Some(MissingUserId))
      && (user.text != "" && dto.competitionId !in db.competitions ==> v == Some(CompetitionNotFound))
      && (user.text != "" && dto.competitionId in db.competitions ==>
            var c := db.competitions[dto.competitionId];
            && ((forall i | 0 <= i < |c.waves| :: c.waves[i].id != dto.waveId) ==> v == Some(WaveNotFound))
            && (forall i | IsWaveOf(c, dto.waveId, i) ::
                  && (now < c.waves[i].startDate ==> v == Some(WaveNotOpen))
                  && (c.waves[i].startDate <= now && c.waves[i].endDate < now ==> v == Some(WaveClosed))))
  {
    if user.text != "" && dto.competitionId in db.competitions {
      var c := db.competitions[dto.competitionId];
      assert user != NO_ID;
      forall i | IsWaveOf(c, dto.waveId, i) ensures FindWave(c.waves, dto.waveId) == Some(c.waves[i]) {
        FirstWaveIsFound(c.waves, dto.waveId, i);
      }
    } else {
      assert user.text == "" ==> user == NO_ID;
    }
  }

  /** The competition exists and its wave is open at the moment. */
  ghost predicate WaveIsOpen(db: Db, user: Id, dto: RegisterDto, now: Time, i: int) {
    && user.text != "" && dto.competitionId in db.competitions
    && var c := db.competitions[dto.competitionId];
       IsWaveOf(c, dto.waveId, i) && c.waves[i].startDate <= now <= c.waves[i].endDate
  }

  lemma OpenWaveIsFound(db: Db, user: Id, dto: RegisterDto, now: Time, i: int)
    requires WaveIsOpen(db, user, dto, now, i)
    ensures
      var c := db.competitions[dto.competitionId];
      && user != NO_ID && FindWave(c.waves, dto.waveId) == Some(c.waves[i]) && WaveVerdict(c.waves[i], now) == None
      && Truthy(dto.teamId) == HasTeamId(dto)
  {
    FirstWaveIsFound(db.competitions[dto.competitionId].waves, dto.waveId, i);
  }

  lemma WrongTypeAnswer(db: Db, user: Id, dto: RegisterDto, now: Time, newId: Id, i: int)
    requires WaveIsOpen(db, user, dto, now, i)
    ensures
      var v, c := Verdict(db, Register(user, dto, now, newId)), db.competitions[dto.competitionId];
      && (c.participantType == TeamBased && !HasTeamId(dto) ==> v == Some(TeamIdRequired))
      && (c.participantType == Individual && HasTeamId(dto) ==> v == Some(TeamIdNotAllowed))
  {
    OpenWaveIsFound(db, user, dto, now, i);
  }

  lemma IndividualAnswer(db: Db, user: Id, dto: RegisterDto, now: Time, newId: Id, i: int)
    requires WaveIsOpen(db, user, dto, now, i)
    requires db.competitions[dto.competitionId].participantType == Individual && !HasTeamId(dto)
    ensures
      var v, duplicate := Verdict(db, Register(user, dto, now, newId)), Registered(db, dto, Some(user), None);
      && (duplicate ==> v == Some(AlreadyRegistered))
      && (!duplicate && HasThree(db, user) ==> v == Some(QuotaReached))
      && (!duplicate && !HasThree(db, user) && user !in db.users ==> v == Some(SaveFailed))
      && (!duplicate && !HasThree(db, user) && user in db.users ==> v == None)
    ensures
      var s := Register(user, dto, now, newId);
      var row := Registration(dto.competitionId, dto.waveId, Some(user), None, PendingPayment, []);
      Next(db, s) == if Verdict(db, s).Some? then db else db.(registrations := db.registrations[newId := row])
  {
    OpenWaveIsFound(db, user, dto, now, i);
    CountsIff(db, user);
    RegisteredIff(db, dto, NewRegistration(db.competitions[dto.competitionId], user, dto));
  }

  /** The team has at least the minimum and at most the maximum of the competition, where zero stands for one
      and for three. */
  predicate HasAllowedSize(c: Competition, team: Team) {
    && (if c.minTeamMembers == 0 then 1 else c.minTeamMembers) <= 1 + |team.members|
    && 1 + |team.members| <= (if c.maxTeamMembers == 0 then 3 else c.maxTeamMembers)
  }

  lemma TeamAnswer(db: Db, user: Id, dto: RegisterDto, now: Time, newId: Id, i: int)
    requires WaveIsOpen(db, user, dto, now, i)
    requires db.competitions[dto.competitionId].participantType == TeamBased && HasTeamId(dto)
    ensures
      var v, t, duplicate := Verdict(db, Register(user, dto, now, newId)), dto.teamId.value,
                             Registered(db, dto, None, dto.teamId);
      && (duplicate ==> v == Some(AlreadyRegistered))
      && (!duplicate && HasThree(db, user) ==> v == Some(QuotaReached))
      && (!duplicate && !HasThree(db, user) ==>
            && (t !in db.teams ==> v == Some(TeamNotFound))
            && (t in db.teams ==> LedTeamAnswer(db, user, dto, v)))
    ensures
      var s := Register(user, dto, now, newId);
      var row := Registration(dto.competitionId, dto.waveId, None, dto.teamId, PendingPayment, []);
      Next(db, s) == if Verdict(db, s).Some? then db else db.(registrations := db.registrations[newId := row])
  {
    OpenWaveIsFound(db, user, dto, now, i);
    forall u { CountsIff(db, u); }
    RegisteredIff(db, dto, NewRegistration(db.competitions[dto.competitionId], user, dto));
  }

  /** The answer once the team has been loaded. */
  ghost predicate LedTeamAnswer(db: Db, user: Id, dto: RegisterDto, v: Option<Error>)
    requires dto.competitionId in db.competitions && dto.teamId.Some? && dto.teamId.value in db.teams
  {
    var c, team := db.competitions[dto.competitionId], db.teams[dto.teamId.value];
    var full := exists m :: m in team.members && HasThree(db, m);
    && (team.leaderId != user ==> v == Some(OnlyLeaderMayRegister))
    && (team.leaderId == user && !HasAllowedSize(c, team) ==> v == Some(TeamSizeOutOfRange))
    && (team.leaderId == user && HasAllowedSize(c, team) && full ==> v == Some(MemberQuotaReached))
    && (team.leaderId == user && HasAllowedSize(c, team) && !full ==> v == None)
  }

  // ---------- payments ----------

  /** The individual owner of the registration, or the leader of its team. */
  ghost predicate IsManager(db: Db, r: Registration, user: Id) {
    r.userId == Some(user) || exists t :: t in db.teams && r.teamId == Some(t) && db.teams[t].leaderId == user
  }

  lemma IsManagerIff(db: Db, r: Registration, user: Id)
    ensures Manages(db.teams, r, user) <==> IsManager(db, r, user)
  {
  }

  lemma UploadProofAnswer(db: Db, reg: Id, user: Id, file: Upload, newId: Id, now: Time)
    ensures
      var v := Verdict(db, UploadProof(reg, user, file, newId, now));
      && (reg !in db.registrations ==> v == Some(RegistrationNotFound))
      && (reg in db.registrations ==>
            var r := db.registrations[reg];
            var manager, unpaid := IsManager(db, r, user), r.status == PendingPayment || r.status == Rejected;
            && (!manager ==> v == Some(NotRegistrationManager))
            && (manager && r.status == PendingVerification ==> v == Some(ProofAwaitingReview))
            && (manager && (r.status == Verified || r.status == Cancelled) ==> v == Some(ProofNotNeeded))
            && (manager && unpaid && !file.Valid? ==> v == Some(InvalidFile))
            && (manager && unpaid && file.Valid? && user !in db.users ==> v == Some(SaveFailed))
            && (manager && unpaid && file.Valid? && user in db.users ==> v == None))
  {
    if reg in db.registrations { IsManagerIff(db, db.registrations[reg], user); }
  }

  /** An accepted proof is stored and appended as a pending attempt; a refused one leaves nothing, except for
      the blob when the account is gone. */
  lemma UploadProofWrites(db: Db, reg: Id, user: Id, file: Upload, newId: Id, now: Time)
    ensures
      var s := UploadProof(reg, user, file, newId, now);
      var v, next := Verdict(db, s), Next(db, s);
      && (v.None? ==>
            var r := db.registrations[reg];
            var attempt := Attempt(newId, file.url, Some(file.id), AttemptPending, None, None, None, now);
            next == db.(
              registrations := db.registrations[reg :=
                r.(status := PendingVerification, attempts := r.attempts + [attempt])],
              files := db.files[file.id := StoredFile(user, file.key, file.url)],
              blobs := db.blobs + {file.key}))
      && (v.Some? ==> next == if v == Some(SaveFailed) then db.(blobs := db.blobs + {file.key}) else db)
  {
  }

  /** A proof is accepted exactly from the manager of a registration that is unpaid or rejected, when the file
      is valid and the account exists. */
  lemma UploadAcceptedIff(db: Db, reg: Id, user: Id, file: Upload, newId: Id, now: Time)
    ensures Accepted(db, UploadProof(reg, user, file, newId, now)) <==>
      && reg in db.registrations && file.Valid? && user in db.users
      && var r := db.registrations[reg];
         && (r.status == PendingPayment || r.status == Rejected)
         && (r.userId == Some(user) || exists t :: t in db.teams && r.teamId == Some(t) && db.teams[t].leaderId == user)
  {
    UploadProofAnswer(db, reg, user, file, newId, now);
  }

  /** A character that is not white space to `trim`. */
  predicate IsVisible(c: char) {
    && c as int !in {9, 10, 11, 12, 13, 32, 0xA0, 0x1680, 0x2028, 0x2029, 0x202F, 0x205F, 0x3000, 0xFEFF}
    && !(0x2000 <= c as int <= 0x200A)
  }

  predicate HasText(note: Option<string>) {
    note.Some? && exists i :: 0 <= i < |note.value| && IsVisible(note.value[i])
  }

  lemma HasTextIff(dto: VerifyDto)
    ensures NoteMissing(dto) <==> dto.action == Reject && !HasText(dto.note)
  {
    forall c: char ensures IsVisible(c) <==> !Text.IsWhite(c) {
      VisibleIff(c);
    }
  }

  lemma VisibleIff(c: char)
    ensures IsVisible(c) <==> !Text.IsWhite(c)
  {
  }

  lemma VerifyAnswer(db: Db, reg: Id, treasurer: Id, dto: VerifyDto, now: Time)
    ensures
      var v := Verdict(db, VerifyPayment(reg, treasurer, dto, now));
      && (reg !in db.registrations ==> v == Some(RegistrationNotFound))
      && (reg in db.registrations ==>
            var r := db.registrations[reg];
            var open := r.status != PendingPayment && r.status != Cancelled;
            var mute := dto.action == Reject && !HasText(dto.note);
            && (!open ==> v == Some(NotVerifiable))
            && (open && mute ==> v == Some(NoteRequired))
            && (open && !mute && r.attempts == [] ==> v == Some(NoProofToVerify))
            && (open && !mute && r.attempts != [] ==> v == None))
  {
    HasTextIff(dto);
  }

  /** A decision writes status, note, verifier and time of the newest attempt and the status of the row. */
  lemma VerifyWrites(db: Db, reg: Id, treasurer: Id, dto: VerifyDto, now: Time)
    ensures
      var s := VerifyPayment(reg, treasurer, dto, now);
      var v, next := Verdict(db, s), Next(db, s);
      && (v.None? ==>
            var r, approved := db.registrations[reg], dto.action == Approve;
            var last := |r.attempts| - 1;
            var decided := r.attempts[last].(
              status := if approved then AttemptApproved else AttemptRejected, rejectionReason := dto.note,
              verifiedBy := Some(treasurer), verifiedAt := Some((now + 500) / 1000 * 1000));
            next == db.(registrations := db.registrations[reg :=
              r.(status := if approved then Verified else Rejected, attempts := r.attempts[last := decided])]))
      && (v.Some? ==> next == db)
  {
  }

  /** In every database that keeps the rules, a decision is accepted exactly when the registration has a
      proof, also one that was decided before, and a rejection says why. */
  lemma VerifyAcceptedIff(db: Db, reg: Id, treasurer: Id, dto: VerifyDto, now: Time)
    requires RegistrationInv(db)
    ensures Accepted(db, VerifyPayment(reg, treasurer, dto, now)) <==>
      && reg in db.registrations && db.registrations[reg].attempts != []
      && (dto.action == Reject ==>
            dto.note.Some? && exists i :: 0 <= i < |dto.note.value| && IsVisible(dto.note.value[i]))
  {
    VerifyAnswer(db, reg, treasurer, dto, now);
    assert reg in db.registrations ==> Coupled(db.registrations[reg]);
  }

  // ---------- stored files ----------

  lemma UploadFileAnswer(db: Db, user: Id, file: Upload)
    ensures
      var v, next := Verdict(db, UploadFile(user, file)), Next(db, UploadFile(user, file));
      && (!file.Valid? ==> v == Some(InvalidFile) && next == db)
      && (file.Valid? && user !in db.users ==> v == Some(SaveFailed) && next == db.(blobs := db.blobs + {file.key}))
      && (file.Valid? && user in db.users ==>
            && v == None
            && next == db.(files := db.files[file.id := StoredFile(user, file.key, file.url)],
                           blobs := db.blobs + {file.key}))
  {
  }

  /** The rows of registrations after a file is gone: the references to it are cleared, nothing else. */
  ghost predicate Cleared(before: map<Id, Registration>, after: map<Id, Registration>, file: Id) {
    && after.Keys == before.Keys
    && forall r | r in before ::
         && after[r] == before[r].(attempts := after[r].attempts)
         && |after[r].attempts| == |before[r].attempts|
         && forall i | 0 <= i < |before[r].attempts| ::
              after[r].attempts[i] == if before[r].attempts[i].proofOfPaymentFileId == Some(file)
                                      then before[r].attempts[i].(proofOfPaymentFileId := None)
                                      else before[r].attempts[i]
  }

  lemma DeleteFileAnswer(db: Db, file: Id, user: Id)
    ensures
      var v, next := Verdict(db, DeleteFile(file, user)), Next(db, DeleteFile(file, user));
      && (file !in db.files ==> v == Some(FileNotFound))
      && (file in db.files && db.files[file].userId != user ==> v == Some(FileForbidden))
      && (file in db.files && db.files[file].userId == user ==>
            && v == None
            && next == db.(files := db.files - {file}, blobs := db.blobs - {db.files[file].fileKey},
                           registrations := next.registrations)
            && Cleared(db.registrations, next.registrations, file))
      && (v.Some? ==> next == db)
  {
  }

  // ---------- submissions ----------

  ghost predicate HasWork(db: Db, reg: Id) {
    exists s :: s in db.submissions && db.submissions[s].registrationId == reg
  }

  lemma SubmitAnswer(db: Db, user: Id, dto: SubmissionDto, work: Upload, originality: Upload, newId: Id)
    ensures
      var v, reg := Verdict(db, Submit(user, dto, work, originality, newId)), dto.registrationId;
      && (work.Missing? ==> v == Some(WorkFileRequired))
      && (work.Invalid? ==> v == Some(InvalidFile))
      && (work.Valid? && user !in db.users ==> v == Some(SaveFailed))
      && (work.Valid? && user in db.users && originality.Invalid? ==> v == Some(InvalidFile))
      && (work.Valid? && user in db.users && !originality.Invalid? ==>
            && (reg !in db.registrations ==> v == Some(RegistrationNotFound))
            && (reg in db.registrations ==>
                  var r := db.registrations[reg];
                  var paid, manager := r.status == Verified, IsManager(db, r, user);
                  && (!paid ==> v == Some(NotPaid))
                  && (paid && !manager ==> v == Some(NotSubmissionManager))
                  && (paid && manager && |dto.title| > 255 ==> v == Some(SaveFailed))
                  && (paid && manager && |dto.title| <= 255 && HasWork(db, reg) ==> v == Some(AlreadySubmitted))
                  && (paid && manager && |dto.title| <= 255 && !HasWork(db, reg) ==> v == None)))
  {
    if dto.registrationId in db.registrations { IsManagerIff(db, db.registrations[dto.registrationId], user); }
    var after := AfterUploads(db, user, work, originality);
    assert HasSubmission(after, dto.registrationId) <==> HasWork(db, dto.registrationId);
  }

  /** What the uploads store before anybody asks whether the submission is allowed. */
  lemma {:induction false} UploadsStore(db: Db, user: Id, work: Upload, originality: Upload)
    ensures
      var next, stored := AfterUploads(db, user, work, originality), work.Valid? && user in db.users;
      && next == db.(files := next.files, blobs := next.blobs)
      && (!work.Valid? ==> next == db)
      && (work.Valid? && !stored ==> next.files == db.files && next.blobs == db.blobs + {work.key})
      && (stored && !originality.Valid? ==>
            && next.files == db.files[work.id := StoredFile(user, work.key, work.url)]
            && next.blobs == db.blobs + {work.key})
      && (stored && originality.Valid? ==>
            && next.files == db.files[work.id := StoredFile(user, work.key, work.url)]
                                     [originality.id := StoredFile(user, originality.key, originality.url)]
            && next.blobs == db.blobs + {work.key} + {originality.key})
  {
  }

  /** They stay, whatever comes after; only the table of submissions may change besides. */
  lemma {:induction false} SubmitStores(db: Db, user: Id, dto: SubmissionDto, work: Upload, originality: Upload,
                                        newId: Id)
    ensures
      var next := Next(db, Submit(user, dto, work, originality, newId));
      next == AfterUploads(db, user, work, originality).(submissions := next.submissions)
  {
  }

  /** The row of an accepted submission links both files; a refused one writes none. */
  lemma SubmitWrites(db: Db, user: Id, dto: SubmissionDto, work: Upload, originality: Upload, newId: Id)
    ensures
      var s := Submit(user, dto, work, originality, newId);
      var v, next := Verdict(db, s), Next(db, s);
      && (v.Some? ==> next.submissions == db.submissions)
      && (v.None? ==>
            && newId in next.submissions && next.submissions - {newId} == db.submissions - {newId}
            && var row := next.submissions[newId];
               && row.registrationId == dto.registrationId && row.title == dto.title
               && row.description == dto.description && row.status == Submitted
               && row.fileUrl == work.url && row.storedFileId == Some(work.id)
               && row.originalityFileUrl == (if originality.Valid? then Some(originality.url) else None)
               && row.originalityStoredFileId == (if originality.Valid? then Some(originality.id) else None))
  {
  }

  lemma DeleteSubmissionAnswer(db: Db, sub: Id, user: Id)
    ensures
      var v := Verdict(db, DeleteSubmission(sub, user));
      && (sub !in db.submissions ==> v == Some(SubmissionNotFound))
      && (sub in db.submissions ==>
            var s := db.submissions[sub];
            var reg := s.registrationId;
            var manager := reg in db.registrations && IsManager(db, db.registrations[reg], user);
            && (!manager ==> v == Some(MayNotDeleteSubmission))
            && (manager && s.status == Graded ==> v == Some(SubmissionGraded))
            && (manager && s.status != Graded && s.storedFileId == None ==> v == None)
            && (manager && s.status != Graded && s.storedFileId.Some? ==>
                  var file := s.storedFileId.value;
                  && (file !in db.files ==> v == Some(FileNotFound))
                  && (file in db.files && db.files[file].userId != user ==> v == Some(FileForbidden))
                  && (file in db.files && db.files[file].userId == user ==> v == None)))
  {
    if sub in db.submissions && db.submissions[sub].registrationId in db.registrations {
      IsManagerIff(db, db.registrations[db.submissions[sub].registrationId], user);
    }
  }

  lemma DeleteSubmissionWrites(db: Db, sub: Id, user: Id)
    ensures
      var v, next := Verdict(db, DeleteSubmission(sub, user)), Next(db, DeleteSubmission(sub, user));
      && (v.Some? ==> next == db)
      && (v.None? && db.submissions[sub].storedFileId == None ==> next == db.(submissions := db.submissions - {sub}))
      && (v.None? && db.submissions[sub].storedFileId.Some? ==>
            var file := db.submissions[sub].storedFileId.value;
            && next == db.(submissions := db.submissions - {sub}, files := db.files - {file},
                           blobs := db.blobs - {db.files[file].fileKey}, registrations := next.registrations)
            && Cleared(db.registrations, next.registrations, file))
  {
  }
}
