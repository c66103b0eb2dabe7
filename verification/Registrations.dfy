/** Registering for a competition, uploading a payment proof and verifying it. */
module Registrations {
  import opened Wrappers
  import opened Entities
  import opened Storage
  import opened Teams
  import Text

  /** A user may take part in this many competitions at a time. */
  const QUOTA := 3

  // ---------- who takes part, who manages ----------

  /** The participant join: own registration, leader of its team, or member of its team. */
  predicate Participates(teams: map<Id, Team>, r: Registration, user: Id) {
    || r.userId == Some(user)
    || (r.teamId.Some? && r.teamId.value in teams && OnTeam(teams[r.teamId.value], user))
  }

  /** The one person who may upload proofs and work: the individual owner or the team leader. */
  predicate Manages(teams: map<Id, Team>, r: Registration, user: Id) {
    || r.userId == Some(user)
    || (r.teamId.Some? && r.teamId.value in teams && teams[r.teamId.value].leaderId == user)
  }

  predicate IsActive(status: RegistrationStatus) {
    status != Cancelled && status != Rejected
  }

  /** What the quota check counts for a user. */
  ghost function ActiveRegs(db: Db, user: Id): set<Id> {
    set r | r in db.registrations && IsActive(db.registrations[r].status)
            && Participates(db.teams, db.registrations[r], user)
  }

  ghost function Active(db: Db, user: Id): nat {
    |ActiveRegs(db, user)|
  }

  // ---------- what every request keeps ----------

  function LastOf(attempts: seq<Attempt>): Attempt
    requires attempts != []
  {
    attempts[|attempts| - 1]
  }

  /** A rejection always says why, by whom and when. */
  predicate RejectionExplained(a: Attempt) {
    a.status == AttemptRejected ==>
      && a.rejectionReason.Some? && !Text.IsBlank(a.rejectionReason.value)
      && a.verifiedBy.Some? && a.verifiedAt.Some?
  }

  predicate Chronological(attempts: seq<Attempt>) {
    forall i, j | 0 <= i < j < |attempts| :: attempts[i].uploadedAt < attempts[j].uploadedAt
  }

  /** The attempt status that goes with a registration status; the other two statuses go with none. */
  function LatestStatus(status: RegistrationStatus): Option<AttemptStatus> {
    match status
    case PendingVerification => Some(AttemptPending)
    case Verified => Some(AttemptApproved)
    case Rejected => Some(AttemptRejected)
    case PendingPayment => None
    case Cancelled => None
  }

  /** The status of a registration and its attempts determine each other. */
  predicate Coupled(r: Registration) {
    && r.status != Cancelled
    && (r.status == PendingPayment <==> r.attempts == [])
    && (r.attempts != [] ==> LatestStatus(r.status) == Some(LastOf(r.attempts).status))
    && (forall i | 0 <= i < |r.attempts| - 1 :: r.attempts[i].status == AttemptRejected)
    && (forall i | 0 <= i < |r.attempts| :: RejectionExplained(r.attempts[i]))
    && Chronological(r.attempts)
  }

  predicate HasWave(c: Competition, wave: Id) {
    exists i :: 0 <= i < |c.waves| && c.waves[i].id == wave
  }

  ghost predicate RowOk(db: Db, r: Registration) {
    && (r.userId.Some? <==> r.teamId.None?)
    && (r.userId.Some? ==> r.userId.value in db.users)
    && (r.teamId.Some? ==> r.teamId.value in db.teams)
    && r.competitionId in db.competitions
    && HasWave(db.competitions[r.competitionId], r.waveId)
  }

  /** Two rows of one competition clash when they share a user or a team; a NULL never clashes. */
  predicate Clash(a: Registration, b: Registration) {
    && a.competitionId == b.competitionId
    && ((a.userId.Some? && a.userId == b.userId) || (a.teamId.Some? && a.teamId == b.teamId))
  }

  /** The two unique indexes of the table. */
  ghost predicate NoClash(registrations: map<Id, Registration>) {
    forall r, r' {:trigger Clash(registrations[r], registrations[r'])} |
      r in registrations && r' in registrations && Clash(registrations[r], registrations[r']) :: r == r'
  }

  ghost predicate AllCoupled(registrations: map<Id, Registration>) {
    forall r | r in registrations :: Coupled(registrations[r])
  }

  ghost predicate RegistrationInv(db: Db) {
    && (forall r | r in db.registrations :: RowOk(db, db.registrations[r]))
    && AllCoupled(db.registrations)
    && NoClash(db.registrations)
  }

  // ---------- register ----------

  function FindWave(waves: seq<Wave>, wave: Id): (r: Option<Wave>)
    ensures r.Some? ==> r.value in waves && r.value.id == wave
    ensures r.None? ==> forall w | w in waves :: w.id != wave
  {
    if waves == [] then None
    else if waves[0].id == wave then Some(waves[0])
    else FindWave(waves[1..], wave)
  }

  function WaveVerdict(w: Wave, now: Time): Option<Error> {
    if now < w.startDate then Some(WaveNotOpen)
    else if now > w.endDate then Some(WaveClosed)
    else None
  }

  predicate Truthy(id: Option<Id>) {
    id.Some? && id.value != NO_ID
  }

  function TypeVerdict(c: Competition, teamId: Option<Id>): Option<Error> {
    if c.participantType.TeamBased? && !Truthy(teamId) then Some(TeamIdRequired)
    else if !c.participantType.TeamBased? && Truthy(teamId) then Some(TeamIdNotAllowed)
    else None
  }

  /** The row a register request inserts. */
  function NewRegistration(c: Competition, user: Id, dto: RegisterDto): Registration {
    var byTeam := c.participantType.TeamBased? && Truthy(dto.teamId);
    Registration(dto.competitionId, dto.waveId,
                 if byTeam then None else Some(user),
                 if byTeam then dto.teamId else None,
                 PendingPayment, [])
  }

  ghost predicate ClashesWithTable(registrations: map<Id, Registration>, row: Registration) {
    exists r :: r in registrations && Clash(registrations[r], row)
  }

  /** `a || d` on a number: zero counts as absent. */
  function OrDefault(n: int, d: int): int {
    if n == 0 then d else n
  }

  predicate SizeAllowed(c: Competition, team: Team) {
    OrDefault(c.minTeamMembers, 1) <= Size(team) <= OrDefault(c.maxTeamMembers, 3)
  }

  /** Guards that look only at the request, the competition and the duplicates. */
  ghost function AdmissionVerdict(db: Db, user: Id, dto: RegisterDto, now: Time): (r: Option<Error>)
    ensures r.None? ==> dto.competitionId in db.competitions
    ensures r.None? ==> HasWave(db.competitions[dto.competitionId], dto.waveId)
    ensures r.None? && db.competitions[dto.competitionId].participantType.TeamBased? ==> Truthy(dto.teamId)
  {
    if user == NO_ID then Some(MissingUserId)
    else if dto.competitionId !in db.competitions then Some(CompetitionNotFound)
    else
      var c := db.competitions[dto.competitionId];
      var wave := FindWave(c.waves, dto.waveId);
      if wave.None? then Some(WaveNotFound)
      else if WaveVerdict(wave.value, now).Some? then WaveVerdict(wave.value, now)
      else if TypeVerdict(c, dto.teamId).Some? then TypeVerdict(c, dto.teamId)
      else if ClashesWithTable(db.registrations, NewRegistration(c, user, dto)) then Some(AlreadyRegistered)
      else None
  }

  ghost predicate QuotaFull(db: Db, user: Id) {
    Active(db, user) >= QUOTA
  }

  /** Guards on the team named by the request, before its members' quotas. */
  function TeamVerdict(db: Db, c: Competition, user: Id, teamId: Id): (r: Option<Error>)
    ensures r.None? ==> teamId in db.teams && db.teams[teamId].leaderId == user && SizeAllowed(c, db.teams[teamId])
  {
    if teamId !in db.teams then Some(TeamNotFound)
    else if db.teams[teamId].leaderId != user then Some(OnlyLeaderMayRegister)
    else if !SizeAllowed(c, db.teams[teamId]) then Some(TeamSizeOutOfRange)
    else None
  }

  /** What the database says to an insert: foreign keys, then the two unique indexes. */
  ghost predicate InsertAccepted(db: Db, row: Registration) {
    && (row.userId.Some? ==> row.userId.value in db.users)
    && (row.teamId.Some? ==> row.teamId.value in db.teams)
    && !ClashesWithTable(db.registrations, row)
  }

  ghost function RegisterVerdict(db: Db, user: Id, dto: RegisterDto, now: Time): (r: Option<Error>)
    ensures r.None? ==> AdmissionVerdict(db, user, dto, now).None?
  {
    var admission := AdmissionVerdict(db, user, dto, now);
    if admission.Some? then admission else
    if QuotaFull(db, user) then Some(QuotaReached) else
    var c := db.competitions[dto.competitionId];
    if c.participantType.TeamBased? then
      var verdict := TeamVerdict(db, c, user, dto.teamId.value);
      if verdict.Some? then verdict
      else if exists m :: m in db.teams[dto.teamId.value].members && QuotaFull(db, m) then Some(MemberQuotaReached)
      else if !InsertAccepted(db, NewRegistration(c, user, dto)) then Some(SaveFailed)
      else None
    else if !InsertAccepted(db, NewRegistration(c, user, dto)) then Some(SaveFailed)
    else None
  }

  function Insert(db: Db, id: Id, row: Registration): Db {
    db.(registrations := db.registrations[id := row])
  }

  // ---------- payment proofs ----------

  /** Guards before the file is stored. */
  function ProofVerdict(db: Db, reg: Id, user: Id): (r: Option<Error>)
    ensures r.None? ==> reg in db.registrations
  {
    if reg !in db.registrations then Some(RegistrationNotFound) else
    var r := db.registrations[reg];
    if !Manages(db.teams, r, user) then Some(NotRegistrationManager)
    else if r.status != PendingPayment && r.status != Rejected then
      Some(if r.status == PendingVerification then ProofAwaitingReview else ProofNotNeeded)
    else None
  }

  function UploadVerdict(db: Db, reg: Id, user: Id, file: Upload): (r: Option<Error>)
    ensures r.None? ==> reg in db.registrations && file.Valid?
  {
    if ProofVerdict(db, reg, user).Some? then ProofVerdict(db, reg, user) else StoreVerdict(db, user, file)
  }

  function NewAttempt(id: Id, file: Upload, now: Time): Attempt
    requires file.Valid?
  {
    Attempt(id, file.url, Some(file.id), AttemptPending, None, None, None, now)
  }

  function WithProof(r: Registration, id: Id, file: Upload, now: Time): Registration
    requires file.Valid?
  {
    r.(attempts := r.attempts + [NewAttempt(id, file, now)], status := PendingVerification)
  }

  /** The database after an upload request, accepted or not. */
  function AfterProof(db: Db, reg: Id, user: Id, file: Upload, attemptId: Id, now: Time): (r: Db)
    ensures r == db.(registrations := r.registrations, files := r.files, blobs := r.blobs)
  {
    if ProofVerdict(db, reg, user).Some? then db else
    var db1 := AfterStore(db, user, file);
    if UploadVerdict(db, reg, user, file).Some? then db1
    else db1.(registrations := db1.registrations[reg := WithProof(db1.registrations[reg], attemptId, file, now)])
  }

  // ---------- verification ----------

  predicate Verifiable(status: RegistrationStatus) {
    status == PendingVerification || status == Verified || status == Rejected
  }

  predicate NoteMissing(dto: VerifyDto) {
    dto.action.Reject? && (dto.note.None? || Text.IsBlank(dto.note.value))
  }

  function VerifyVerdict(db: Db, reg: Id, dto: VerifyDto): (r: Option<Error>)
    ensures r.None? ==> reg in db.registrations && db.registrations[reg].attempts != []
  {
    if reg !in db.registrations then Some(RegistrationNotFound)
    else if !Verifiable(db.registrations[reg].status) then Some(NotVerifiable)
    else if NoteMissing(dto) then Some(NoteRequired)
    else if db.registrations[reg].attempts == [] then Some(NoProofToVerify)
    else None
  }

  function Decide(a: Attempt, treasurer: Id, dto: VerifyDto, now: Time): Attempt {
    a.(status := if dto.action.Approve? then AttemptApproved else AttemptRejected,
       rejectionReason := dto.note,
       verifiedAt := Some(WholeSecond(now)),
       verifiedBy := Some(treasurer))
  }

  function DecidedStatus(action: VerificationAction): RegistrationStatus {
    if action.Approve? then Verified else Rejected
  }

  function Decided(r: Registration, treasurer: Id, dto: VerifyDto, now: Time): Registration
    requires r.attempts != []
  {
    r.(attempts := r.attempts[|r.attempts| - 1 := Decide(LastOf(r.attempts), treasurer, dto, now)],
       status := DecidedStatus(dto.action))
  }

  // ---------- lemmas ----------

  /** Nothing a registration row refers to disappears. */
  ghost predicate ReferencesPersist(db: Db, db': Db) {
    && db.users.Keys <= db'.users.Keys
    && (forall c | c in db.competitions :: c in db'.competitions
          && forall w | HasWave(db.competitions[c], w) :: HasWave(db'.competitions[c], w))
    && (forall r | r in db.registrations && db.registrations[r].teamId.Some? ::
          db.registrations[r].teamId.value in db.teams ==> db.registrations[r].teamId.value in db'.teams)
  }

  lemma RegistrationsSurvive(db: Db, db': Db)
    requires RegistrationInv(db) && ReferencesPersist(db, db')
    requires db'.registrations == db.registrations
    ensures RegistrationInv(db')
  {
    forall r | r in db'.registrations ensures RowOk(db', db'.registrations[r]) {
      assert RowOk(db, db.registrations[r]);
    }
  }

  lemma RewriteKeepsNoClash(registrations: map<Id, Registration>, reg: Id, row: Registration)
    requires NoClash(registrations) && reg in registrations
    requires row == registrations[reg].(status := row.status, attempts := row.attempts)
    ensures NoClash(registrations[reg := row])
  {
    var after := registrations[reg := row];
    forall r, r' | r in after && r' in after && Clash(after[r], after[r'])
      ensures r == r'
    {
      assert Clash(registrations[r], registrations[r']);
    }
  }

  /** Changing status and attempts of one row, and nothing else about registrations. */
  lemma RewriteKeepsRegistrations(db: Db, reg: Id, row: Registration)
    requires RegistrationInv(db) && reg in db.registrations && Coupled(row)
    requires row == db.registrations[reg].(status := row.status, attempts := row.attempts)
    ensures RegistrationInv(db.(registrations := db.registrations[reg := row]))
  {
    var db' := db.(registrations := db.registrations[reg := row]);
    RewriteKeepsNoClash(db.registrations, reg, row);
    forall r | r in db'.registrations ensures RowOk(db', db'.registrations[r]) {
      assert RowOk(db, db.registrations[r]);
    }
  }

  /** Exactly one person manages a registration. */
  lemma ManagerIsUnique(db: Db, r: Registration)
    requires RowOk(db, r)
    ensures exists u :: Manages(db.teams, r, u) && forall v | Manages(db.teams, r, v) :: v == u
  {
    var u := if r.userId.Some? then r.userId.value else db.teams[r.teamId.value].leaderId;
    assert Manages(db.teams, r, u);
  }

  /** Only a registration with a proof can be verified, so the "no proof" refusal is never reached. */
  lemma NoProofBranchIsDead(db: Db, reg: Id, dto: VerifyDto)
    requires RegistrationInv(db)
    ensures VerifyVerdict(db, reg, dto) != Some(NoProofToVerify)
  {
  }

  lemma UploadKeepsCoupling(r: Registration, id: Id, file: Upload, now: Time)
    requires Coupled(r) && file.Valid?
    requires r.status == PendingPayment || r.status == Rejected
    requires forall a | a in r.attempts :: a.uploadedAt < now
    ensures Coupled(WithProof(r, id, file, now))
  {
  }

  /** A decision records the verdict, the note, the verifier and the time on the newest attempt, keeps its
      proof, touches no older attempt, and leaves the row otherwise as it was. A decision that replaces
      another leaves no trace of it: the last one alone determines the row. */
  lemma DecisionTouchesOnlyNewest(r: Registration, treasurer: Id, dto: VerifyDto, now: Time)
    requires r.attempts != []
    ensures
      var after := Decided(r, treasurer, dto, now);
      var was, decided := LastOf(r.attempts), LastOf(after.attempts);
      && after == r.(status := (if dto.action.Approve? then Verified else Rejected), attempts := after.attempts)
      && |after.attempts| == |r.attempts|
      && (forall i | 0 <= i < |r.attempts| - 1 :: after.attempts[i] == r.attempts[i])
      && decided.id == was.id && decided.uploadedAt == was.uploadedAt
      && decided.proofOfPaymentUrl == was.proofOfPaymentUrl && decided.proofOfPaymentFileId == was.proofOfPaymentFileId
      && decided.status == (if dto.action.Approve? then AttemptApproved else AttemptRejected)
      && decided.rejectionReason == dto.note
      && decided.verifiedBy == Some(treasurer) && decided.verifiedAt == Some(WholeSecond(now))
    ensures forall t, d, n :: Decided(Decided(r, treasurer, dto, now), t, d, n) == Decided(r, t, d, n)
  {
    var after := Decided(r, treasurer, dto, now);
    forall t, d, n ensures Decided(after, t, d, n) == Decided(r, t, d, n) {
      assert Decided(after, t, d, n).attempts == Decided(r, t, d, n).attempts;
    }
  }

  lemma DecisionKeepsCoupling(r: Registration, treasurer: Id, dto: VerifyDto, now: Time)
    requires Coupled(r) && r.attempts != [] && !NoteMissing(dto)
    ensures Coupled(Decided(r, treasurer, dto, now))
  {
  }

  /** An insert that the foreign keys and unique indexes let through keeps every rule about rows. */
  lemma InsertKeepsRegistrations(db: Db, id: Id, row: Registration)
    requires RegistrationInv(db) && id !in db.registrations
    requires row.userId.Some? <==> row.teamId.None?
    requires row.status == PendingPayment && row.attempts == []
    requires row.competitionId in db.competitions && HasWave(db.competitions[row.competitionId], row.waveId)
    requires InsertAccepted(db, row)
    ensures RegistrationInv(Insert(db, id, row))
  {
    InsertKeepsNoClash(db.registrations, id, row);
    var db' := Insert(db, id, row);
    forall r | r in db.registrations ensures RowOk(db', db'.registrations[r]) {
      assert RowOk(db, db.registrations[r]);
    }
  }

  lemma InsertKeepsNoClash(registrations: map<Id, Registration>, id: Id, row: Registration)
    requires NoClash(registrations) && id !in registrations && !ClashesWithTable(registrations, row)
    ensures NoClash(registrations[id := row])
  {
    assert forall r | r in registrations :: !Clash(registrations[r], row) && !Clash(row, registrations[r]);
  }

  /** The duplicate check leaves nothing for the unique indexes to find in an atomic request: the save can
      only fail on the foreign key of an individual whose account row is gone. */
  lemma SaveFailsOnlyOnMissingUser(db: Db, user: Id, dto: RegisterDto, now: Time)
    requires RosterInv(db.users, db.teams)
    ensures RegisterVerdict(db, user, dto, now) == Some(SaveFailed) ==> user !in db.users
  {
  }

  ghost predicate BelowQuota(db: Db, row: Registration) {
    forall p | Participates(db.teams, row, p) :: Active(db, p) < 3
  }

  lemma TeamBelowQuotaIff(db: Db, row: Registration)
    requires row.userId.None? && row.teamId.Some? && row.teamId.value in db.teams
    ensures
      var team := db.teams[row.teamId.value];
      BelowQuota(db, row) <==> !QuotaFull(db, team.leaderId) && !exists m :: m in team.members && QuotaFull(db, m)
  {
    var team := db.teams[row.teamId.value];
    assert Participates(db.teams, row, team.leaderId);
    assert forall m | m in team.members :: Participates(db.teams, row, m);
  }

  lemma IndividualBelowQuotaIff(db: Db, row: Registration, user: Id)
    requires row.userId == Some(user) && row.teamId.None?
    ensures BelowQuota(db, row) <==> !QuotaFull(db, user)
  {
    assert Participates(db.teams, row, user);
  }

  /** No row of the competition has this team, or this user. */
  ghost predicate NotYetRegistered(db: Db, competition: Id, user: Option<Id>, team: Option<Id>) {
    forall r | r in db.registrations && db.registrations[r].competitionId == competition ::
      && (user.Some? ==> db.registrations[r].userId != user)
      && (team.Some? ==> db.registrations[r].teamId != team)
  }

  /** A register request is accepted exactly when the competition and the wave take it, nobody of the
      participants is registered through the same user or team already, every participant is below the quota,
      and a team is led by the user and has an allowed size, an individual an account. */
  lemma RegisterAcceptedIff(db: Db, user: Id, dto: RegisterDto, now: Time)
    ensures RegisterVerdict(db, user, dto, now).None? <==>
      && user != NO_ID && dto.competitionId in db.competitions
      && var c := db.competitions[dto.competitionId];
         var wave := FindWave(c.waves, dto.waveId);
         && wave.Some? && wave.value.startDate <= now <= wave.value.endDate
         && (c.participantType.TeamBased? <==> Truthy(dto.teamId))
         && BelowQuota(db, NewRegistration(c, user, dto))
         && if c.participantType.TeamBased? then
              && dto.teamId.value in db.teams && db.teams[dto.teamId.value].leaderId == user
              && (if c.minTeamMembers == 0 then 1 else c.minTeamMembers) <= 1 + |db.teams[dto.teamId.value].members|
              && 1 + |db.teams[dto.teamId.value].members| <= (if c.maxTeamMembers == 0 then 3 else c.maxTeamMembers)
              && NotYetRegistered(db, dto.competitionId, None, dto.teamId)
            else
              && user in db.users
              && NotYetRegistered(db, dto.competitionId, Some(user), None)
  {
    if dto.competitionId in db.competitions {
      var row := NewRegistration(db.competitions[dto.competitionId], user, dto);
      assert ClashesWithTable(db.registrations, row)
        <==> !NotYetRegistered(db, row.competitionId, row.userId, row.teamId);
      if row.userId.Some? {
        IndividualBelowQuotaIff(db, row, user);
      } else if row.teamId.value in db.teams {
        TeamBelowQuotaIff(db, row);
      }
    }
  }
}
