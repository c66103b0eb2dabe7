/** Registering, uploading a payment proof and verifying it, as the use cases do it. */
module RegistrationUseCases {
  import opened Wrappers
  import opened Entities
  import opened Registrations
  import opened PaymentAttempts
  import StorageUseCases
  import D = Database

  lemma {:induction false} SeqAsSet(s: seq<Id>, t: set<Id>)
    requires forall i, j | 0 <= i < j < |s| :: s[i] != s[j]
    requires forall x :: x in s <==> x in t
    ensures |s| == |t|
  {
    if s == [] {
      assert t == {};
    } else {
      var last := s[|s| - 1];
      assert forall x :: x in s[..|s| - 1] <==> x in t - {last};
      SeqAsSet(s[..|s| - 1], t - {last});
    }
  }

  /** `checkUserQuota`: fetch the user's registrations, keep the active ones, compare with three. */
  method CheckUserQuota(db: D.Database, user: Id) returns (full: bool)
    ensures full <==> QuotaFull(db.View(), user)
  {
    var found := db.FindMyRegistrations(user);
    var active := [];
    for i := 0 to |found|
      invariant forall r :: r in active <==> r in found[..i] && IsActive(db.registrations[r].status)
      invariant forall i, j | 0 <= i < j < |active| :: active[i] != active[j]
    {
      if IsActive(db.registrations[found[i]].status) {
        active := active + [found[i]];
      }
    }
    SeqAsSet(active, ActiveRegs(db.View(), user));
    full := |active| >= QUOTA;
  }

  method FindWaveIn(waves: seq<Wave>, wave: Id) returns (r: Option<Wave>)
    ensures r == FindWave(waves, wave)
  {
    for i := 0 to |waves|
      invariant FindWave(waves, wave) == FindWave(waves[i..], wave)
    {
      if waves[i].id == wave {
        return Some(waves[i]);
      }
    }
    r := None;
  }

  method Register(db: D.Database, user: Id, dto: RegisterDto, now: Time, newId: Id) returns (refused: Option<Error>)
    requires newId !in db.registrations
    modifies db`registrations
    ensures refused == RegisterVerdict(old(db.View()), user, dto, now)
    ensures db.registrations == if refused.Some? then old(db.registrations) else
      old(db.registrations)[newId := NewRegistration(db.competitions[dto.competitionId], user, dto)]
  {
    if user == NO_ID {
      return Some(MissingUserId);
    }
    if dto.competitionId !in db.competitions {
      return Some(CompetitionNotFound);
    }
    var competition := db.competitions[dto.competitionId];
    var wave := FindWaveIn(competition.waves, dto.waveId);
    if wave.None? {
      return Some(WaveNotFound);
    }
    refused := WaveVerdict(wave.value, now);
    if refused.Some? {
      return;
    }
    refused := TypeVerdict(competition, dto.teamId);
    if refused.Some? {
      return;
    }
    var isTeam := competition.participantType.TeamBased?;
    var participant := if isTeam then dto.teamId.value else user;
    var duplicate := db.CheckDuplicate(dto.competitionId, participant, isTeam);
    ghost var wanted := NewRegistration(competition, user, dto);
    assert duplicate <==> ClashesWithTable(db.registrations, wanted) by {
      forall r | r in db.registrations
        ensures D.Matches(db.registrations[r], dto.competitionId, participant, isTeam)
             == Clash(db.registrations[r], wanted)
      {
      }
    }
    if duplicate {
      return Some(AlreadyRegistered);
    }
    var full := CheckUserQuota(db, user);
    if full {
      return Some(QuotaReached);
    }

    var row := Registration(dto.competitionId, dto.waveId, None, None, PendingPayment, []);
    if isTeam && Truthy(dto.teamId) {
      refused := TeamVerdict(db.View(), competition, user, dto.teamId.value);
      if refused.Some? {
        return;
      }
      var members := db.teams[dto.teamId.value].members;
      for i := 0 to |members|
        invariant forall j | 0 <= j < i :: !QuotaFull(db.View(), members[j])
        invariant db.View() == old(db.View())
      {
        full := CheckUserQuota(db, members[i]);
        if full {
          return Some(MemberQuotaReached);
        }
      }
      row := row.(teamId := dto.teamId, userId := None);
    } else {
      row := row.(userId := Some(user), teamId := None);
    }
    var saved := db.InsertRegistration(newId, row);
    refused := if saved then None else Some(SaveFailed);
  }

  /** The order in which the database returns the rows of a relation: any permutation, its own choice. */
  ghost predicate IsRowOrder(load: seq<Attempt> -> seq<Attempt>) {
    forall s :: multiset(load(s)) == multiset(s)
  }

  /** The response shows the stored row, newest attempt first. */
  ghost predicate IsResponse(db: Db, reg: Id, response: Response) {
    && reg in db.registrations && db.registrations[reg].competitionId in db.competitions
    && Shows(response, db.registrations[reg], db.competitions[db.registrations[reg].competitionId])
  }

  method Respond(db: D.Database, reg: Id, load: seq<Attempt> -> seq<Attempt>) returns (response: Response)
    requires reg in db.registrations && db.registrations[reg].competitionId in db.competitions
    requires Chronological(db.registrations[reg].attempts) && IsRowOrder(load)
    ensures IsResponse(db.View(), reg, response)
  {
    var r := db.registrations[reg];
    var loaded := load(r.attempts);
    var rows := new Attempt[|loaded|](i requires 0 <= i < |loaded| => loaded[i]);
    assert rows[..] == loaded;
    response := ToResponse(r, db.competitions[r.competitionId], rows);
  }

  datatype Result = Success(response: Response) | Failure(error: Error)

  function Refusal(r: Result): Option<Error> {
    if r.Failure? then Some(r.error) else None
  }

  method UploadPaymentProof(db: D.Database, reg: Id, user: Id, file: Upload, newId: Id, now: Time,
                            load: seq<Attempt> -> seq<Attempt>)
    returns (r: Result)
    requires reg in db.registrations ==> Coupled(db.registrations[reg]) && RowOk(db.View(), db.registrations[reg])
    requires IsRowOrder(load)
    requires reg in db.registrations ==> forall a | a in db.registrations[reg].attempts :: a.uploadedAt < now
    modifies db`registrations, db`files, db`blobs
    ensures Refusal(r) == UploadVerdict(old(db.View()), reg, user, file)
    ensures db.View() == AfterProof(old(db.View()), reg, user, file, newId, now)
    ensures r.Success? ==> IsResponse(db.View(), reg, r.response)
  {
    if reg !in db.registrations {
      return Failure(RegistrationNotFound);
    }
    var registration := db.registrations[reg];
    if !Manages(db.teams, registration, user) {
      return Failure(NotRegistrationManager);
    }
    if registration.status != PendingPayment && registration.status != Rejected {
      return Failure(if registration.status == PendingVerification then ProofAwaitingReview else ProofNotNeeded);
    }
    var refused := StorageUseCases.UploadFile(db, user, file);
    if refused.Some? {
      return Failure(refused.value);
    }
    var attempt := Attempt(newId, file.url, Some(file.id), AttemptPending, None, None, None, now);
    registration := registration.(attempts := registration.attempts + [attempt]);
    registration := registration.(status := PendingVerification);
    db.registrations := db.registrations[reg := registration];
    var response := Respond(db, reg, load);
    r := Success(response);
  }

  /** The rows of the in-memory list, put back in upload order. */
  method InUploadOrder(a: array<Attempt>) returns (s: seq<Attempt>)
    ensures s == Reversed(a[..])
  {
    s := [];
    for i := 0 to a.Length
      invariant s == Reversed(a[..i])
    {
      s := [a[i]] + s;
      assert Reversed(a[..i + 1]) == [a[i]] + Reversed(a[..i]);
    }
    assert a[..a.Length] == a[..];
  }

  /** Loads the attempts, sorts them in place and decides the first; with no attempt there is nothing to
      decide. The result is what the save writes back. */
  method DecideLatest(stored: seq<Attempt>, treasurer: Id, dto: VerifyDto, now: Time,
                      load: seq<Attempt> -> seq<Attempt>)
    returns (rows: seq<Attempt>)
    requires Chronological(stored) && IsRowOrder(load)
    ensures rows == if stored == [] then [] else stored[|stored| - 1 := Decide(LastOf(stored), treasurer, dto, now)]
  {
    var loaded := load(stored);
    var attempts := new Attempt[|loaded|](i requires 0 <= i < |loaded| => loaded[i]);
    assert attempts[..] == loaded;
    SortNewestFirst(attempts);
    SortedIsReversed(stored, attempts[..]);
    if attempts.Length == 0 {
      return [];
    }
    DecideFirst(attempts, treasurer, dto, now);
    rows := InUploadOrder(attempts);
  }

  /** The four field assignments on the latest attempt, with the time as its column keeps it. */
  method DecideFirst(attempts: array<Attempt>, treasurer: Id, dto: VerifyDto, now: Time)
    requires attempts.Length > 0
    modifies attempts
    ensures attempts[..] == old(attempts[..])[0 := Decide(old(attempts[0]), treasurer, dto, now)]
  {
    attempts[0] := attempts[0].(status := if dto.action.Approve? then AttemptApproved else AttemptRejected);
    attempts[0] := attempts[0].(rejectionReason := dto.note);
    attempts[0] := attempts[0].(verifiedAt := Some(WholeSecond(now)));
    attempts[0] := attempts[0].(verifiedBy := Some(treasurer));
  }

  method VerifyPayment(db: D.Database, reg: Id, treasurer: Id, dto: VerifyDto, now: Time,
                       load: seq<Attempt> -> seq<Attempt>)
    returns (r: Result)
    requires reg in db.registrations ==> Coupled(db.registrations[reg]) && RowOk(db.View(), db.registrations[reg])
    requires IsRowOrder(load)
    modifies db`registrations
    ensures Refusal(r) == VerifyVerdict(old(db.View()), reg, dto)
    ensures db.registrations == if r.Failure? then old(db.registrations) else
      old(db.registrations)[reg := Decided(old(db.registrations)[reg], treasurer, dto, now)]
    ensures r.Success? ==> IsResponse(db.View(), reg, r.response)
  {
    if reg !in db.registrations {
      return Failure(RegistrationNotFound);
    }
    var registration := db.registrations[reg];
    if !Verifiable(registration.status) {
      return Failure(NotVerifiable);
    }
    if NoteMissing(dto) {
      return Failure(NoteRequired);
    }
    var rows := DecideLatest(registration.attempts, treasurer, dto, now, load);
    if |rows| == 0 {
      return Failure(NoProofToVerify);
    }
    DecisionKeepsCoupling(registration, treasurer, dto, now);
    registration := registration.(status := if dto.action.Approve? then Verified else Rejected);
    db.registrations := db.registrations[reg := registration.(attempts := rows)];
    var response := Respond(db, reg, load);
    r := Success(response);
  }
}
