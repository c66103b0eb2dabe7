/** How many competitions a user is active in: the exact account of every request, and the bound that
    the quota check really establishes over whole runs. */
module Quota {
  import opened Wrappers
  import opened Entities
  import opened Teams
  import opened Registrations
  import opened Proofs
  import opened Steps
  import opened Runs

  function Count(happened: bool): nat {
    if happened then 1 else 0
  }

  // ---------- the four events that move a count ----------

  /** The request registers a competition that the user takes part in. */
  ghost predicate Enters(db: Db, s: Step, user: Id) {
    && s.Register? && Accepted(db, s)
    && Participates(db.teams, NewRegistration(db.competitions[s.dto.competitionId], s.user, s.dto), user)
  }

  /** The status that an accepted payment request sets. */
  function MovesTo(s: Step): RegistrationStatus
    requires s.UploadProof? || s.VerifyPayment?
  {
    if s.UploadProof? then PendingVerification else DecidedStatus(s.decision.action)
  }

  /** A rejected registration of the user becomes active again: a new proof, or a reversed decision. */
  ghost predicate Revives(db: Db, s: Step, user: Id) {
    && (s.UploadProof? || s.VerifyPayment?)
    && Accepted(db, s)
    && db.registrations[s.reg].status == Rejected && IsActive(MovesTo(s))
    && Participates(db.teams, db.registrations[s.reg], user)
  }

  /** An active registration of the user is rejected. */
  ghost predicate Leaves(db: Db, s: Step, user: Id) {
    && (s.UploadProof? || s.VerifyPayment?)
    && Accepted(db, s)
    && IsActive(db.registrations[s.reg].status) && !IsActive(MovesTo(s))
    && Participates(db.teams, db.registrations[s.reg], user)
  }

  ghost function TeamActive(db: Db, team: Id): set<Id> {
    set r | r in db.registrations && IsActive(db.registrations[r].status) && db.registrations[r].teamId == Some(team)
  }

  /** The active registrations of a team that the user has just been added to. */
  ghost function Gains(db: Db, s: Step, user: Id): set<Id> {
    if s.AddMember? && Accepted(db, s) && UserByEmail(db.users, s.email) == Some(user)
    then TeamActive(db, TeamOf(db.teams, s.leader).value)
    else {}
  }

  // ---------- how single table updates move the count ----------

  /** Two sets that agree everywhere except perhaps at one element. */
  lemma DifferAt<T>(before: set<T>, after: set<T>, x: T)
    requires forall r :: r != x ==> (r in after <==> r in before)
    ensures |after| + Count(x in before && x !in after) == |before| + Count(x !in before && x in after)
  {
    if x in before {
      if x !in after { assert before == after + {x}; } else { assert before == after; }
    } else {
      if x in after { assert after == before + {x}; } else { assert before == after; }
    }
  }

  predicate CountsFor(teams: map<Id, Team>, r: Registration, user: Id) {
    IsActive(r.status) && Participates(teams, r, user)
  }

  /** Writing one row moves the count by what the row stood for and what it stands for now. */
  lemma WriteCount(db: Db, db': Db, reg: Id, row: Registration, user: Id)
    requires db'.teams == db.teams && db'.registrations == db.registrations[reg := row]
    ensures
      var was := reg in db.registrations && CountsFor(db.teams, db.registrations[reg], user);
      var counts := CountsFor(db.teams, row, user);
      Active(db', user) + Count(was && !counts) == Active(db, user) + Count(!was && counts)
  {
    var before, after := ActiveRegs(db, user), ActiveRegs(db', user);
    forall r | r != reg ensures r in after <==> r in before {
      assert r in db'.registrations <==> r in db.registrations;
    }
    DifferAt(before, after, reg);
  }

  lemma InsertCount(db: Db, id: Id, row: Registration, user: Id)
    requires id !in db.registrations && IsActive(row.status)
    ensures Active(Insert(db, id, row), user) == Active(db, user) + Count(Participates(db.teams, row, user))
  {
    WriteCount(db, Insert(db, id, row), id, row, user);
  }

  lemma RewriteCount(db: Db, db': Db, reg: Id, row: Registration, user: Id)
    requires reg in db.registrations && db'.teams == db.teams && db'.registrations == db.registrations[reg := row]
    requires row.userId == db.registrations[reg].userId && row.teamId == db.registrations[reg].teamId
    ensures
      var takesPart := Participates(db.teams, db.registrations[reg], user);
      var was, counts := IsActive(db.registrations[reg].status), IsActive(row.status);
      Active(db', user) + Count(takesPart && was && !counts) == Active(db, user) + Count(takesPart && !was && counts)
  {
    WriteCount(db, db', reg, row, user);
  }

  /** Rosters and registrations decide the count; nothing else does. */
  lemma SameTablesSameCount(db: Db, db': Db, user: Id)
    requires SameRows(db, db')
    requires forall r | r in db.registrations ::
               Participates(db'.teams, db.registrations[r], user) == Participates(db.teams, db.registrations[r], user)
    ensures Active(db', user) == Active(db, user)
  {
    assert ActiveRegs(db', user) == ActiveRegs(db, user);
  }

  // ---------- one request ----------

  lemma RegisterCount(db: Db, s: Step, user: Id)
    requires s.Register? && Accepted(db, s) && s.newId !in db.registrations
    ensures Active(Next(db, s), user) == Active(db, user) + Count(Enters(db, s, user))
    ensures Enters(db, s, user) ==> Active(Next(db, s), user) <= QUOTA
  {
    var row := NewRegistration(db.competitions[s.dto.competitionId], s.user, s.dto);
    InsertCount(db, s.newId, row, user);
    if Enters(db, s, user) {
      assert !QuotaFull(db, user);
    }
  }

  lemma MoveCount(db: Db, s: Step, user: Id)
    requires s.UploadProof? || s.VerifyPayment?
    ensures Active(Next(db, s), user) + Count(Leaves(db, s, user)) == Active(db, user) + Count(Revives(db, s, user))
  {
    PaymentRewritesRow(db, s);
    TeamsUntouched(db, s);
    if Accepted(db, s) {
      RewriteCount(db, Next(db, s), s.reg, Paid(db.registrations[s.reg], s), user);
    } else {
      SameTablesSameCount(db, Next(db, s), user);
    }
  }

  /** Joining a team adds exactly its active registrations to the newcomer's, and nothing for others. */
  lemma JoinGains(db: Db, team: Id, newcomer: Id, user: Id)
    requires team in db.teams
    ensures
      var db' := db.(teams := db.teams[team := WithMember(db.teams[team], newcomer)]);
      ActiveRegs(db', user) == ActiveRegs(db, user) + if user == newcomer then TeamActive(db, team) else {}
  {
    var teams' := db.teams[team := WithMember(db.teams[team], newcomer)];
    forall r | r in db.registrations
      ensures Participates(teams', db.registrations[r], user) <==>
        || Participates(db.teams, db.registrations[r], user)
        || (user == newcomer && db.registrations[r].teamId == Some(team))
    {
    }
  }

  /** Whoever joins had no team, so the team's registrations are all new to the count. */
  lemma JoinCount(db: Db, team: Id, newcomer: Id, user: Id)
    requires RegistrationInv(db) && team in db.teams && !HasTeam(db.teams, newcomer)
    ensures
      var db' := db.(teams := db.teams[team := WithMember(db.teams[team], newcomer)]);
      Active(db', user) == Active(db, user) + if user == newcomer then |TeamActive(db, team)| else 0
  {
    JoinGains(db, team, newcomer, user);
    if user == newcomer {
      forall r | r in TeamActive(db, team) ensures r !in ActiveRegs(db, user) {
        assert RowOk(db, db.registrations[r]);
        assert !OnTeam(db.teams[team], user);
      }
    }
  }

  lemma AddMemberCount(db: Db, s: Step, user: Id)
    requires RegistrationInv(db) && s.AddMember?
    ensures Active(Next(db, s), user) == Active(db, user) + |Gains(db, s, user)|
  {
    if Accepted(db, s) {
      JoinCount(db, TeamOf(db.teams, s.leader).value, UserByEmail(db.users, s.email).value, user);
    }
  }

  /** A new team has no registration yet. */
  lemma CreateTeamCount(db: Db, s: Step, user: Id)
    requires RegistrationInv(db) && s.CreateTeam? && s.newId !in db.teams
    ensures Active(Next(db, s), user) == Active(db, user)
  {
    assert forall r | r in db.registrations :: RowOk(db, db.registrations[r]);
    SameTablesSameCount(db, Next(db, s), user);
  }

  /** A disbanded team has none any more. */
  lemma DisbandCount(db: Db, s: Step, user: Id)
    requires s.Disband?
    ensures Active(Next(db, s), user) == Active(db, user)
  {
    RowsUntouched(db, s);
    SameTablesSameCount(db, Next(db, s), user);
  }

  lemma OtherCount(db: Db, s: Step, user: Id)
    requires s.UploadFile? || s.DeleteFile? || s.Submit? || s.DeleteSubmission? || s.EditUsers? || s.EditCompetitions?
    ensures Active(Next(db, s), user) == Active(db, user)
  {
    RowsUntouched(db, s);
    TeamsUntouched(db, s);
    SameTablesSameCount(db, Next(db, s), user);
  }

  /** The account of one request: every change of a count is one of the four events. */
  lemma {:induction false} StepAccount(db: Db, s: Step, user: Id)
    requires Inv(db) && Enabled(db, s)
    ensures Active(Next(db, s), user) + Count(Leaves(db, s, user))
         == Active(db, user) + Count(Enters(db, s, user)) + Count(Revives(db, s, user)) + |Gains(db, s, user)|
    ensures Enters(db, s, user) ==> Active(Next(db, s), user) <= QUOTA
  {
    match s
    case Register(_, _, _, _) => if Accepted(db, s) { RegisterCount(db, s, user); }
    case UploadProof(_, _, _, _, _) => MoveCount(db, s, user);
    case VerifyPayment(_, _, _, _) => MoveCount(db, s, user);
    case AddMember(_, _) => AddMemberCount(db, s, user);
    case CreateTeam(_, _, _) => CreateTeamCount(db, s, user);
    case Disband(_) => DisbandCount(db, s, user);
    case _ => OtherCount(db, s, user);
  }

  /** A request takes a user from within the quota to beyond it exactly when it revives a registration of
      somebody who is already at the quota, or adds somebody to a team with too many registrations. */
  lemma {:induction false} QuotaKeptIff(db: Db, s: Step, user: Id)
    requires Inv(db) && Enabled(db, s) && Active(db, user) <= QUOTA
    ensures Active(Next(db, s), user) <= 3 <==>
      && !(Revives(db, s, user) && Active(db, user) == 3)
      && Active(db, user) + |Gains(db, s, user)| <= 3
  {
    StepAccount(db, s, user);
  }

  // ---------- whole runs ----------

  ghost function Entries(db: Db, steps: seq<Step>, user: Id): nat {
    if steps == [] then 0
    else Entries(db, Before(steps), user) + Count(Enters(Run(db, Before(steps)), Last(steps), user))
  }

  ghost function Revivals(db: Db, steps: seq<Step>, user: Id): nat {
    if steps == [] then 0
    else Revivals(db, Before(steps), user) + Count(Revives(Run(db, Before(steps)), Last(steps), user))
  }

  ghost function Rejections(db: Db, steps: seq<Step>, user: Id): nat {
    if steps == [] then 0
    else Rejections(db, Before(steps), user) + Count(Leaves(Run(db, Before(steps)), Last(steps), user))
  }

  ghost function LateGains(db: Db, steps: seq<Step>, user: Id): nat {
    if steps == [] then 0
    else LateGains(db, Before(steps), user) + |Gains(Run(db, Before(steps)), Last(steps), user)|
  }

  /** Conservation over every run: active = entered + revived + gained by joining - rejected. */
  lemma {:induction false} ActiveIsConserved(db: Db, steps: seq<Step>, user: Id)
    requires Init(db) && ValidRun(db, steps)
    ensures Active(Run(db, steps), user) + Rejections(db, steps, user)
         == Entries(db, steps, user) + Revivals(db, steps, user) + LateGains(db, steps, user)
  {
    if steps == [] {
      assert ActiveRegs(db, user) == {};
    } else {
      ActiveIsConserved(db, Before(steps), user);
      RunKeepsInv(db, Before(steps));
      StepAccount(Run(db, Before(steps)), Last(steps), user);
    }
  }

  /** The quota over every run: only revivals and late joins can take a user beyond three. */
  lemma {:induction false} ActiveIsBounded(db: Db, steps: seq<Step>, user: Id)
    requires Init(db) && ValidRun(db, steps)
    ensures Active(Run(db, steps), user) <= 3 + Revivals(db, steps, user) + LateGains(db, steps, user)
  {
    if steps == [] {
      assert ActiveRegs(db, user) == {};
    } else {
      ActiveIsBounded(db, Before(steps), user);
      RunKeepsInv(db, Before(steps));
      StepAccount(Run(db, Before(steps)), Last(steps), user);
    }
  }

  /** The response of an accepted register request: one more for each participant, at most three then,
      and nobody else's count moves. */
  lemma {:induction false} RegisterRaisesParticipants(db: Db, s: Step, user: Id)
    requires Inv(db) && Enabled(db, s) && s.Register? && Accepted(db, s)
    ensures
      var team := db.competitions[s.dto.competitionId].participantType.TeamBased?;
      var takesPart := if team then OnTeam(db.teams[s.dto.teamId.value], user) else user == s.user;
      && Active(Next(db, s), user) == Active(db, user) + Count(takesPart)
      && (takesPart ==> Active(Next(db, s), user) <= 3)
  {
    RegisterCount(db, s, user);
  }
}
