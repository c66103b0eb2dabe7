/** Register and disband requests that overlap. Between the checks of one and its write any other request
    may act, so what was checked may be out of date when the row is saved or the team deleted: no
    transaction covers the two. */
module Interleaving {
  import opened Wrappers
  import opened Entities
  import opened Teams
  import opened Registrations
  import opened Steps
  import opened Quota

  /** How far a register request has come; `Loaded` lists the members whose quota is still to be checked. */
  datatype Stage = Validated | LeaderChecked | Loaded(remaining: seq<Id>)

  /** A request in flight, with the competition row it read at its start. */
  datatype Request = Request(user: Id, dto: RegisterDto, competition: Competition, stage: Stage)

  /** A disband request in flight: who sent it, and the team that it has found to be unregistered. */
  datatype Disbanding = Disbanding(user: Id, team: Id)

  /** The database, the register and the disband requests in flight, and how the register requests that have
      ended were answered. */
  datatype System = System(
    db: Db,
    requests: map<Id, Request>,
    disbands: map<Id, Disbanding>,
    answers: map<Id, Option<Error>>)

  /** Nothing is in flight. */
  function Idle(db: Db): System {
    System(db, map[], map[], map[])
  }

  datatype Action =
    | Begin(id: Id, user: Id, dto: RegisterDto, now: Time)
    | CheckLeader(id: Id)
    | LoadTeam(id: Id)
    | CheckMember(id: Id)
    | Save(id: Id, newId: Id)
    | BeginDisband(id: Id, user: Id)
    | FinishDisband(id: Id)
    | Other(step: Step)

  function Row(p: Request): Registration {
    NewRegistration(p.competition, p.user, p.dto)
  }

  // ---------- the machine ----------

  ghost predicate Possible(sys: System, a: Action) {
    match a
    case Begin(id, _, _, _) => id !in sys.requests && id !in sys.answers
    case CheckLeader(id) => id in sys.requests && sys.requests[id].stage.Validated?
    case LoadTeam(id) => id in sys.requests && sys.requests[id].stage.LeaderChecked?
                         && sys.requests[id].dto.teamId.Some?
    case CheckMember(id) => id in sys.requests && sys.requests[id].stage.Loaded?
                            && sys.requests[id].stage.remaining != []
    case Save(id, newId) => id in sys.requests && sys.requests[id].stage == Loaded([]) && newId !in sys.db.registrations
    case BeginDisband(id, _) => id !in sys.disbands
    case FinishDisband(id) => id in sys.disbands
    case Other(s) =>
      && !s.Register? && !s.Disband? && Enabled(sys.db, s)
      && (s.CreateTeam? ==>
            && (forall p | p in sys.requests :: Row(sys.requests[p]).teamId != Some(s.newId))
            && (forall d | d in sys.disbands :: sys.disbands[d].team != s.newId))
  }

  /** The request leaves with its answer: a refusal, or none. */
  function Ended(sys: System, id: Id, answer: Option<Error>): System {
    sys.(requests := sys.requests - {id}, answers := sys.answers[id := answer])
  }

  function Advanced(sys: System, id: Id, stage: Stage): System
    requires id in sys.requests
  {
    sys.(requests := sys.requests[id := sys.requests[id].(stage := stage)])
  }

  function PastLeader(p: Request): Stage {
    if p.competition.participantType.TeamBased? then LeaderChecked else Loaded([])
  }

  /** The system after an action; an action that cannot happen leaves it alone. */
  ghost function After(sys: System, a: Action): System {
    if !Possible(sys, a) then sys else
    match a
    case Begin(id, user, dto, now) =>
      if AdmissionVerdict(sys.db, user, dto, now).Some? then Ended(sys, id, AdmissionVerdict(sys.db, user, dto, now))
      else sys.(requests := sys.requests[id := Request(user, dto, sys.db.competitions[dto.competitionId], Validated)])
    case CheckLeader(id) =>
      if QuotaFull(sys.db, sys.requests[id].user) then Ended(sys, id, Some(QuotaReached))
      else Advanced(sys, id, PastLeader(sys.requests[id]))
    case LoadTeam(id) =>
      var p := sys.requests[id];
      var verdict := TeamVerdict(sys.db, p.competition, p.user, p.dto.teamId.value);
      if verdict.Some? then Ended(sys, id, verdict)
      else Advanced(sys, id, Loaded(sys.db.teams[p.dto.teamId.value].members))
    case CheckMember(id) =>
      var remaining := sys.requests[id].stage.remaining;
      if QuotaFull(sys.db, remaining[0]) then Ended(sys, id, Some(MemberQuotaReached))
      else Advanced(sys, id, Loaded(remaining[1..]))
    case Save(id, newId) =>
      var row := Row(sys.requests[id]);
      if InsertAccepted(sys.db, row) then Ended(sys, id, None).(db := Insert(sys.db, newId, row))
      else Ended(sys, id, Some(SaveFailed))
    case BeginDisband(id, user) =>
      if DisbandVerdict(sys.db, user).Some? then sys
      else sys.(disbands := sys.disbands[id := Disbanding(user, TeamOf(sys.db.teams, user).value)])
    case FinishDisband(id) =>
      sys.(db := DeleteTeam(sys.db, sys.disbands[id].team), disbands := sys.disbands - {id})
    case Other(s) => sys.(db := Next(sys.db, s))
  }

  // ---------- what every action keeps ----------

  ghost predicate RequestOk(db: Db, p: Request) {
    && p.dto.competitionId in db.competitions
    && HasWave(db.competitions[p.dto.competitionId], p.dto.waveId)
    && (p.competition.participantType.TeamBased? <==> Row(p).teamId.Some?)
    && (p.stage.LeaderChecked? ==> Row(p).teamId.Some?)
    && (p.stage.Loaded? && Row(p).teamId.Some? && Row(p).teamId.value in db.teams ==>
          && db.teams[Row(p).teamId.value].leaderId == p.user
          && OrDefault(p.competition.minTeamMembers, 1) <= Size(db.teams[Row(p).teamId.value])
          && forall m | m in p.stage.remaining :: m in db.teams[Row(p).teamId.value].members)
  }

  /** The team is still led by the sender, unless it is gone. */
  predicate LedBySender(teams: map<Id, Team>, d: Disbanding) {
    d.team in teams ==> teams[d.team].leaderId == d.user
  }

  ghost predicate SystemInv(sys: System) {
    && Inv(sys.db)
    && (forall p | p in sys.requests :: RequestOk(sys.db, sys.requests[p]))
    && forall d | d in sys.disbands :: LedBySender(sys.db.teams, sys.disbands[d])
  }

  // ---------- counting requests in flight ----------

  /** The request has passed the user's quota check, or will never make it because the user came too
      late: saving it adds one to the user's count. */
  predicate Cleared(db: Db, p: Request, user: Id) {
    match p.stage
    case Validated => false
    case LeaderChecked => p.user == user
    case Loaded(remaining) => Participates(db.teams, Row(p), user) && user !in remaining
  }

  ghost function Pending(sys: System, user: Id): set<Id> {
    set p | p in sys.requests && Cleared(sys.db, sys.requests[p], user)
  }

  /** The user's own requests, and those of the user's team that have read its roster. */
  ghost function InFlight(sys: System, user: Id): set<Id> {
    set p | p in sys.requests
            && (sys.requests[p].user == user
                || (sys.requests[p].stage.Loaded? && Participates(sys.db.teams, Row(sys.requests[p]), user)))
  }

  /** Requests of a team that had read its roster before the user was added to it. */
  ghost function LatePending(sys: System, a: Action, user: Id): set<Id> {
    if a.Other? && a.step.AddMember? && Accepted(sys.db, a.step)
       && UserByEmail(sys.db.users, a.step.email) == Some(user)
    then set p | p in sys.requests && sys.requests[p].stage.Loaded?
                 && Row(sys.requests[p]).teamId == TeamOf(sys.db.teams, a.step.leader)
    else {}
  }

  /** What an action may add to a user's count besides a checked registration. */
  ghost function Extra(sys: System, a: Action, user: Id): nat {
    |LatePending(sys, a, user)|
    + if a.Other? then Count(Revives(sys.db, a.step, user)) + |Gains(sys.db, a.step, user)| else 0
  }

  // ---------- each action keeps the invariant ----------

  lemma RequestsSurvive(db: Db, s: Step, p: Request)
    requires RequestOk(db, p) && Enabled(db, s)
    requires s.CreateTeam? ==> Row(p).teamId != Some(s.newId)
    ensures RequestOk(Next(db, s), p)
  {
    CompetitionsPersist(db, s);
    TeamsOnlyGrow(db, s);
  }

  /** What a request relies on is in the tables of teams and competitions. */
  lemma RequestsIgnoreRows(db: Db, id: Id, row: Registration, p: Request)
    ensures RequestOk(Insert(db, id, row), p) <==> RequestOk(db, p)
  {
  }

  lemma SaveKeepsInv(sys: System, id: Id, newId: Id)
    requires SystemInv(sys) && Possible(sys, Save(id, newId))
    ensures SystemInv(After(sys, Save(id, newId)))
  {
    var row := Row(sys.requests[id]);
    assert RequestOk(sys.db, sys.requests[id]);
    if InsertAccepted(sys.db, row) {
      InsertRowKeepsInv(sys.db, newId, row);
      forall p | p in sys.requests { RequestsIgnoreRows(sys.db, newId, row, sys.requests[p]); }
    }
  }

  /** Overlapping requests break none of the rules about rows: one owner, a wave of its own competition,
      no two rows of one competition with the same user or team. */
  lemma {:induction false} ActionKeepsInv(sys: System, a: Action)
    requires SystemInv(sys) && Possible(sys, a)
    ensures SystemInv(After(sys, a))
  {
    match a
    case Save(id, newId) => SaveKeepsInv(sys, id, newId);
    case FinishDisband(id) => FinishKeepsInv(sys, id);
    case BeginDisband(_, _) =>
    case Other(s) => OtherKeepsInv(sys, s);
    case Begin(_, _, _, _) => BeginKeepsInv(sys, a);
    case CheckLeader(_) => CheckKeepsInv(sys, a);
    case LoadTeam(_) => CheckKeepsInv(sys, a);
    case CheckMember(_) => CheckKeepsInv(sys, a);
  }

  lemma OtherKeepsInv(sys: System, s: Step)
    requires SystemInv(sys) && Possible(sys, Other(s))
    ensures SystemInv(After(sys, Other(s)))
  {
    StepKeepsInv(sys.db, s);
    forall p | p in sys.requests ensures RequestOk(Next(sys.db, s), sys.requests[p]) {
      RequestsSurvive(sys.db, s, sys.requests[p]);
    }
    TeamsOnlyGrow(sys.db, s);
  }

  lemma FinishKeepsInv(sys: System, id: Id)
    requires SystemInv(sys) && Possible(sys, FinishDisband(id))
    ensures SystemInv(After(sys, FinishDisband(id)))
  {
    var t := sys.disbands[id].team;
    DeleteTeamKeepsInv(sys.db, t);
    forall p | p in sys.requests ensures RequestOk(DeleteTeam(sys.db, t), sys.requests[p]) {
      assert RequestOk(sys.db, sys.requests[p]);
    }
  }

  lemma AdvanceKeepsInv(sys: System, id: Id, stage: Stage)
    requires SystemInv(sys) && id in sys.requests && RequestOk(sys.db, sys.requests[id].(stage := stage))
    ensures SystemInv(Advanced(sys, id, stage))
  {
  }

  lemma EndKeepsInv(sys: System, id: Id, answer: Option<Error>)
    requires SystemInv(sys)
    ensures SystemInv(Ended(sys, id, answer))
  {
  }

  lemma BeginKeepsInv(sys: System, a: Action)
    requires SystemInv(sys) && Possible(sys, a) && a.Begin?
    ensures SystemInv(After(sys, a))
  {
  }

  /** The actions that only check leave the database alone. */
  lemma CheckKeepsInv(sys: System, a: Action)
    requires SystemInv(sys) && Possible(sys, a) && (a.CheckLeader? || a.LoadTeam? || a.CheckMember?)
    ensures SystemInv(After(sys, a))
  {
    var p := sys.requests[a.id];
    assert RequestOk(sys.db, p);
    if a.id in After(sys, a).answers && After(sys, a) == Ended(sys, a.id, After(sys, a).answers[a.id]) {
      EndKeepsInv(sys, a.id, After(sys, a).answers[a.id]);
    } else {
      AdvanceKeepsInv(sys, a.id, After(sys, a).requests[a.id].stage);
    }
  }

  // ---------- the account of one action ----------

  lemma PendingIsInFlight(sys: System, user: Id)
    ensures Pending(sys, user) <= InFlight(sys, user)
    ensures |Pending(sys, user)| <= |InFlight(sys, user)|
  {
    SubsetIsSmaller(Pending(sys, user), InFlight(sys, user));
  }

  lemma SubsetIsSmaller<T>(a: set<T>, b: set<T>)
    requires a <= b
    ensures |a| <= |b|
  {
    assert b == a + (b - a);
  }

  /** A quota check that passes: the user had at most two, and everything pending is in flight. */
  lemma CheckCount(sys: System, a: Action, user: Id)
    requires SystemInv(sys) && Possible(sys, a) && (a.CheckLeader? || a.CheckMember?)
    ensures Active(After(sys, a).db, user) == Active(sys.db, user)
    ensures
      || |Pending(After(sys, a), user)| <= |Pending(sys, user)|
      || Active(sys.db, user) < QUOTA
  {
    var p := sys.requests[a.id];
    assert RequestOk(sys.db, p);
    var checked := if a.CheckLeader? then p.user else p.stage.remaining[0];
    if user != checked || QuotaFull(sys.db, checked) {
      SubsetIsSmaller(Pending(After(sys, a), user), Pending(sys, user));
    }
  }

  /** A new request has passed no check. */
  lemma BeginCount(sys: System, a: Action, user: Id)
    requires Possible(sys, a) && a.Begin?
    ensures After(sys, a).db == sys.db
    ensures |Pending(After(sys, a), user)| <= |Pending(sys, user)|
  {
    SubsetIsSmaller(Pending(After(sys, a), user), Pending(sys, user));
  }

  /** Reading the roster clears nobody: all members are still to be checked. */
  lemma LoadCount(sys: System, a: Action, user: Id)
    requires SystemInv(sys) && Possible(sys, a) && a.LoadTeam?
    ensures After(sys, a).db == sys.db
    ensures |Pending(After(sys, a), user)| <= |Pending(sys, user)|
  {
    assert RequestOk(sys.db, sys.requests[a.id]);
    SubsetIsSmaller(Pending(After(sys, a), user), Pending(sys, user));
  }

  /** The saved request is gone; rosters are as before, so the others count for whom they counted. */
  lemma PendingAfterSave(sys: System, id: Id, newId: Id, user: Id)
    requires Possible(sys, Save(id, newId))
    ensures Pending(After(sys, Save(id, newId)), user) == Pending(sys, user) - {id}
    ensures Participates(sys.db.teams, Row(sys.requests[id]), user) ==> id in Pending(sys, user)
  {
  }

  /** Saving turns one pending request of each participant into one active registration. */
  lemma SaveCount(sys: System, id: Id, newId: Id, user: Id)
    requires Possible(sys, Save(id, newId))
    ensures
      var after := After(sys, Save(id, newId));
      Active(after.db, user) + |Pending(after, user)| <= Active(sys.db, user) + |Pending(sys, user)|
  {
    PendingAfterSave(sys, id, newId, user);
    if InsertAccepted(sys.db, Row(sys.requests[id])) {
      InsertCount(sys.db, newId, Row(sys.requests[id]), user);
    }
  }

  /** A request only becomes pending for a user without a check when the user joins its team late. */
  lemma PendingOnlyGrowsByJoining(sys: System, s: Step, user: Id, p: Id)
    requires SystemInv(sys) && Possible(sys, Other(s)) && p in sys.requests
    requires Cleared(Next(sys.db, s), sys.requests[p], user) && !Cleared(sys.db, sys.requests[p], user)
    ensures p in LatePending(sys, Other(s), user)
  {
    assert RequestOk(sys.db, sys.requests[p]);
    if !s.CreateTeam? && !s.AddMember? { TeamsUntouched(sys.db, s); }
  }

  lemma OtherPending(sys: System, s: Step, user: Id)
    requires SystemInv(sys) && Possible(sys, Other(s))
    ensures |Pending(After(sys, Other(s)), user)| <= |Pending(sys, user)| + |LatePending(sys, Other(s), user)|
  {
    var after := After(sys, Other(s));
    forall p | p in Pending(after, user) && p !in Pending(sys, user)
      ensures p in LatePending(sys, Other(s), user)
    {
      PendingOnlyGrowsByJoining(sys, s, user, p);
    }
    SubsetIsSmaller(Pending(after, user), Pending(sys, user) + LatePending(sys, Other(s), user));
  }

  /** The disband only takes registrations and rosters away. */
  lemma FinishCount(sys: System, id: Id, user: Id)
    requires Possible(sys, FinishDisband(id))
    ensures
      var after := After(sys, FinishDisband(id));
      Active(after.db, user) <= Active(sys.db, user) && |Pending(after, user)| <= |Pending(sys, user)|
  {
    var after := After(sys, FinishDisband(id));
    SubsetIsSmaller(ActiveRegs(after.db, user), ActiveRegs(sys.db, user));
    SubsetIsSmaller(Pending(after, user), Pending(sys, user));
  }

  lemma ActionAccount(sys: System, a: Action, user: Id)
    requires SystemInv(sys) && Possible(sys, a)
    ensures
      var after := After(sys, a);
      var total := Active(after.db, user) + |Pending(after, user)|;
      || total <= Active(sys.db, user) + |Pending(sys, user)| + Extra(sys, a, user)
      || total <= QUOTA - 1 + |InFlight(after, user)|
  {
    match a
    case Begin(_, _, _, _) => BeginCount(sys, a, user);
    case LoadTeam(_) => LoadCount(sys, a, user);
    case CheckLeader(_) => CheckCount(sys, a, user); PendingIsInFlight(After(sys, a), user);
    case CheckMember(_) => CheckCount(sys, a, user); PendingIsInFlight(After(sys, a), user);
    case Save(id, newId) => SaveCount(sys, id, newId, user);
    case BeginDisband(_, _) => assert Pending(After(sys, a), user) == Pending(sys, user);
    case FinishDisband(id) => FinishCount(sys, id, user);
    case Other(s) => OtherPending(sys, s, user); StepAccount(sys.db, s, user);
  }

  /** The action takes a user who is within the quota beyond it: it saves a row of a user who is full by
      then, revives a registration of such a user, or adds the user to a team with too many. */
  ghost predicate Overshoots(sys: System, a: Action, user: Id)
    requires Possible(sys, a)
  {
    match a
    case Save(id, _) =>
      var row := Row(sys.requests[id]);
      InsertAccepted(sys.db, row) && Participates(sys.db.teams, row, user) && QuotaFull(sys.db, user)
    case Other(s) =>
      (Revives(sys.db, s, user) && QuotaFull(sys.db, user)) || Active(sys.db, user) + |Gains(sys.db, s, user)| > QUOTA
    case _ => false
  }

  lemma SaveKeepsQuotaIff(sys: System, a: Action, user: Id)
    requires Possible(sys, a) && a.Save? && Active(sys.db, user) <= QUOTA
    ensures Active(After(sys, a).db, user) <= QUOTA <==> !Overshoots(sys, a, user)
  {
    var row := Row(sys.requests[a.id]);
    if InsertAccepted(sys.db, row) { InsertCount(sys.db, a.newId, row, user); }
  }

  lemma OtherKeepsQuotaIff(sys: System, a: Action, user: Id)
    requires SystemInv(sys) && Possible(sys, a) && a.Other? && Active(sys.db, user) <= QUOTA
    ensures Active(After(sys, a).db, user) <= QUOTA <==> !Overshoots(sys, a, user)
  {
    QuotaKeptIff(sys.db, a.step, user);
  }

  lemma RestKeepsQuota(sys: System, a: Action, user: Id)
    requires Possible(sys, a) && !a.Save? && !a.Other?
    ensures Active(After(sys, a).db, user) <= Active(sys.db, user) && !Overshoots(sys, a, user)
  {
    if a.FinishDisband? { FinishCount(sys, a.id, user); }
  }

  /** An action keeps a user within the quota if and only if it is not one of these. */
  lemma {:induction false} ActionKeepsQuotaIff(sys: System, a: Action, user: Id)
    requires SystemInv(sys) && Possible(sys, a) && Active(sys.db, user) <= QUOTA
    ensures Active(After(sys, a).db, user) <= QUOTA <==> !Overshoots(sys, a, user)
  {
    if a.Save? {
      SaveKeepsQuotaIff(sys, a, user);
    } else if a.Other? {
      OtherKeepsQuotaIff(sys, a, user);
    } else {
      RestKeepsQuota(sys, a, user);
    }
  }

  // ---------- whole interleaved runs ----------

  ghost function RunAll(sys: System, actions: seq<Action>): System {
    if actions == [] then sys else After(RunAll(sys, actions[..|actions| - 1]), actions[|actions| - 1])
  }

  ghost predicate PossibleRun(sys: System, actions: seq<Action>) {
    actions != [] ==>
      && PossibleRun(sys, actions[..|actions| - 1])
      && Possible(RunAll(sys, actions[..|actions| - 1]), actions[|actions| - 1])
  }

  ghost function Extras(sys: System, actions: seq<Action>, user: Id): nat {
    if actions == [] then 0
    else
      var before := actions[..|actions| - 1];
      Extras(sys, before, user) + Extra(RunAll(sys, before), actions[|actions| - 1], user)
  }

  /** Never more than `k` requests of the user are in flight. */
  ghost predicate AtMostInFlight(sys: System, actions: seq<Action>, user: Id, k: nat) {
    && |InFlight(RunAll(sys, actions), user)| <= k
    && (actions != [] ==> AtMostInFlight(sys, actions[..|actions| - 1], user, k))
  }

  lemma RunAllExtends(sys: System, actions: seq<Action>, a: Action)
    requires PossibleRun(sys, actions) && Possible(RunAll(sys, actions), a)
    ensures PossibleRun(sys, actions + [a]) && RunAll(sys, actions + [a]) == After(RunAll(sys, actions), a)
  {
    assert (actions + [a])[..|actions + [a]| - 1] == actions;
  }

  lemma {:induction false} RunAllAppends(sys: System, first: seq<Action>, second: seq<Action>)
    requires PossibleRun(sys, first) && PossibleRun(RunAll(sys, first), second)
    ensures PossibleRun(sys, first + second)
    ensures RunAll(sys, first + second) == RunAll(RunAll(sys, first), second)
  {
    if second == [] {
      assert first + second == first;
    } else {
      var before := second[..|second| - 1];
      assert (first + second)[..|first + second| - 1] == first + before;
      RunAllAppends(sys, first, before);
    }
  }

  lemma {:induction false} RunAllKeepsInv(sys: System, actions: seq<Action>)
    requires SystemInv(sys) && PossibleRun(sys, actions)
    ensures SystemInv(RunAll(sys, actions))
  {
    if actions != [] {
      RunAllKeepsInv(sys, actions[..|actions| - 1]);
      ActionKeepsInv(RunAll(sys, actions[..|actions| - 1]), actions[|actions| - 1]);
    }
  }

  /** With at most `k` requests of a user in flight at a time, the user is active in at most `2 + k`
      competitions, plus what revivals and late joins add. One at a time gives the quota of three. */
  lemma {:induction false} OverlapIsBounded(db: Db, actions: seq<Action>, user: Id, k: nat)
    requires Init(db) && PossibleRun(Idle(db), actions)
    requires AtMostInFlight(Idle(db), actions, user, k)
    ensures
      var final := RunAll(Idle(db), actions);
      Active(final.db, user) + |Pending(final, user)| <= 2 + k + Extras(Idle(db), actions, user)
  {
    var sys := Idle(db);
    InitHolds(db);
    if actions == [] {
      assert ActiveRegs(db, user) == {} && Pending(sys, user) == {};
    } else {
      var before := actions[..|actions| - 1];
      OverlapIsBounded(db, before, user, k);
      RunAllKeepsInv(sys, before);
      ActionAccount(RunAll(sys, before), actions[|actions| - 1], user);
    }
  }

  /** The user is within the quota at every point of the run. */
  ghost predicate AlwaysWithin(sys: System, actions: seq<Action>, user: Id) {
    && Active(RunAll(sys, actions).db, user) <= QUOTA
    && (actions != [] ==> AlwaysWithin(sys, actions[..|actions| - 1], user))
  }

  ghost predicate NeverOvershoots(sys: System, actions: seq<Action>, user: Id)
    requires PossibleRun(sys, actions)
  {
    actions != [] ==>
      && NeverOvershoots(sys, actions[..|actions| - 1], user)
      && !Overshoots(RunAll(sys, actions[..|actions| - 1]), actions[|actions| - 1], user)
  }

  /** Over any interleaving a user stays within the quota throughout if and only if no action of it saves,
      revives or joins when there is no place left at that moment. */
  lemma {:induction false} OverlapStaysWithinIff(db: Db, actions: seq<Action>, user: Id)
    requires Init(db) && PossibleRun(Idle(db), actions)
    ensures AlwaysWithin(Idle(db), actions, user) <==> NeverOvershoots(Idle(db), actions, user)
  {
    InitHolds(db);
    if actions == [] {
      assert ActiveRegs(db, user) == {};
    } else {
      var before := actions[..|actions| - 1];
      OverlapStaysWithinIff(db, before, user);
      RunAllKeepsInv(Idle(db), before);
      if AlwaysWithin(Idle(db), before, user) {
        ActionKeepsQuotaIff(RunAll(Idle(db), before), actions[|actions| - 1], user);
      }
    }
  }

  /** No overlap of requests can register a user or a team twice for a competition, leave a row without an
      owner or with two, or give it a wave of another competition. */
  lemma {:induction false} OverlapKeepsRows(db: Db, actions: seq<Action>, r: Id, r': Id)
    requires Init(db) && PossibleRun(Idle(db), actions)
    requires r in RunAll(Idle(db), actions).db.registrations
    requires r' in RunAll(Idle(db), actions).db.registrations
    ensures
      var final := RunAll(Idle(db), actions).db;
      var a, b := final.registrations[r], final.registrations[r'];
      && (a.userId.Some? <==> a.teamId.None?)
      && a.competitionId in final.competitions && HasWave(final.competitions[a.competitionId], a.waveId)
      && (r != r' && a.competitionId == b.competitionId ==>
            && (a.userId.Some? ==> a.userId != b.userId)
            && (a.teamId.Some? ==> a.teamId != b.teamId))
  {
    InitHolds(db);
    RunAllKeepsInv(Idle(db), actions);
    var final := RunAll(Idle(db), actions).db;
    assert RowOk(final, final.registrations[r]);
    assert Clash(final.registrations[r], final.registrations[r']) ==> r == r';
  }

  // ---------- a request that nobody interrupts ----------

  /** The system with one more request in flight. */
  function With(sys: System, id: Id, p: Request): System {
    sys.(requests := sys.requests[id := p])
  }

  function Staged(p: Request, stage: Stage): Request {
    p.(stage := stage)
  }

  ghost predicate Leads(sys: System, actions: seq<Action>, end: System) {
    PossibleRun(sys, actions) && RunAll(sys, actions) == end
  }

  /** What the save answers, and what the checks before it do, when the database stays as it is. */
  ghost function SaveOutcome(db: Db, p: Request): Option<Error> {
    if InsertAccepted(db, Row(p)) then None else Some(SaveFailed)
  }

  ghost function TeamOutcome(db: Db, p: Request): Option<Error>
    requires p.dto.teamId.Some?
  {
    var verdict := TeamVerdict(db, p.competition, p.user, p.dto.teamId.value);
    if verdict.Some? then verdict
    else if exists m :: m in db.teams[p.dto.teamId.value].members && QuotaFull(db, m) then Some(MemberQuotaReached)
    else SaveOutcome(db, p)
  }

  ghost function Outcome(db: Db, p: Request): Option<Error>
    requires p.competition.participantType.TeamBased? ==> p.dto.teamId.Some?
  {
    if QuotaFull(db, p.user) then Some(QuotaReached)
    else if p.competition.participantType.TeamBased? then TeamOutcome(db, p)
    else SaveOutcome(db, p)
  }

  /** The request has been answered, and its row is there if the answer is not a refusal. */
  function Concluded(sys: System, id: Id, row: Registration, newId: Id, answer: Option<Error>): System {
    sys.(db := if answer.None? then Insert(sys.db, newId, row) else sys.db, answers := sys.answers[id := answer])
  }

  lemma AloneMoves(sys: System, id: Id, p: Request, stage: Stage, answer: Option<Error>)
    requires id !in sys.requests
    ensures Advanced(With(sys, id, p), id, stage) == With(sys, id, Staged(p, stage))
    ensures Ended(With(sys, id, p), id, answer) == sys.(answers := sys.answers[id := answer])
  {
    assert sys.requests[id := p][id := Staged(p, stage)] == sys.requests[id := Staged(p, stage)];
    assert sys.requests[id := p] - {id} == sys.requests;
  }

  lemma LeadsOn(start: System, actions: seq<Action>, sys: System, a: Action)
    requires Leads(start, actions, sys) && Possible(sys, a)
    ensures Leads(start, actions + [a], After(sys, a))
  {
    RunAllExtends(start, actions, a);
  }

  lemma SaveAlone(sys: System, actions: seq<Action>, id: Id, p: Request, newId: Id) returns (longer: seq<Action>)
    requires id !in sys.requests && newId !in sys.db.registrations
    requires Leads(sys, actions, With(sys, id, p)) && p.stage == Loaded([])
    ensures Leads(sys, longer, Concluded(sys, id, Row(p), newId, SaveOutcome(sys.db, p)))
  {
    AloneMoves(sys, id, p, Loaded([]), SaveOutcome(sys.db, p));
    LeadsOn(sys, actions, With(sys, id, p), Save(id, newId));
    longer := actions + [Save(id, newId)];
  }

  /** The member loop, undisturbed: it ends the request at the first full member or clears all of them. */
  lemma {:induction false} CheckMembersAlone(sys: System, actions: seq<Action>, id: Id, p: Request, members: seq<Id>)
    returns (longer: seq<Action>)
    requires id !in sys.requests && Leads(sys, actions, With(sys, id, Staged(p, Loaded(members))))
    ensures
      var full := exists m :: m in members && QuotaFull(sys.db, m);
      Leads(sys, longer, if full then sys.(answers := sys.answers[id := Some(MemberQuotaReached)])
                         else With(sys, id, Staged(p, Loaded([]))))
    decreases |members|
  {
    longer := actions;
    if members != [] {
      var loaded := Staged(p, Loaded(members));
      AloneMoves(sys, id, loaded, Loaded(members[1..]), Some(MemberQuotaReached));
      LeadsOn(sys, actions, With(sys, id, loaded), CheckMember(id));
      longer := actions + [CheckMember(id)];
      if !QuotaFull(sys.db, members[0]) {
        assert forall m :: m in members <==> m == members[0] || m in members[1..];
        longer := CheckMembersAlone(sys, longer, id, p, members[1..]);
      }
    }
  }

  /** From the leader's quota check to the end, for a team. */
  lemma TeamAlone(sys: System, actions: seq<Action>, id: Id, p: Request, newId: Id) returns (longer: seq<Action>)
    requires id !in sys.requests && newId !in sys.db.registrations && p.dto.teamId.Some?
    requires Leads(sys, actions, With(sys, id, Staged(p, LeaderChecked)))
    ensures Leads(sys, longer, Concluded(sys, id, Row(p), newId, TeamOutcome(sys.db, p)))
  {
    var checked := Staged(p, LeaderChecked);
    LeadsOn(sys, actions, With(sys, id, checked), LoadTeam(id));
    longer := actions + [LoadTeam(id)];
    var verdict := TeamVerdict(sys.db, p.competition, p.user, p.dto.teamId.value);
    if verdict.Some? {
      AloneMoves(sys, id, checked, Loaded([]), verdict);
    } else {
      var members := sys.db.teams[p.dto.teamId.value].members;
      AloneMoves(sys, id, checked, Loaded(members), verdict);
      longer := CheckMembersAlone(sys, longer, id, p, members);
      if !(exists m :: m in members && QuotaFull(sys.db, m)) {
        longer := SaveAlone(sys, longer, id, Staged(p, Loaded([])), newId);
      }
    }
  }

  lemma BeginAlone(sys: System, user: Id, dto: RegisterDto, now: Time, id: Id) returns (actions: seq<Action>)
    requires id !in sys.requests && id !in sys.answers
    ensures
      var refused := AdmissionVerdict(sys.db, user, dto, now);
      Leads(sys, actions,
            if refused.Some? then sys.(answers := sys.answers[id := refused])
            else With(sys, id, Request(user, dto, sys.db.competitions[dto.competitionId], Validated)))
  {
    assert Leads(sys, [], sys);
    assert sys.requests - {id} == sys.requests;
    LeadsOn(sys, [], sys, Begin(id, user, dto, now));
    actions := [] + [Begin(id, user, dto, now)];
  }

  lemma CheckLeaderAlone(sys: System, actions: seq<Action>, id: Id, p: Request) returns (longer: seq<Action>)
    requires id !in sys.requests && Leads(sys, actions, With(sys, id, p)) && p.stage.Validated?
    ensures Leads(sys, longer,
                  if QuotaFull(sys.db, p.user) then sys.(answers := sys.answers[id := Some(QuotaReached)])
                  else With(sys, id, Staged(p, PastLeader(p))))
  {
    AloneMoves(sys, id, p, PastLeader(p), Some(QuotaReached));
    LeadsOn(sys, actions, With(sys, id, p), CheckLeader(id));
    longer := actions + [CheckLeader(id)];
  }

  /** From a valid request to the end. */
  lemma AdmittedAlone(sys: System, actions: seq<Action>, id: Id, p: Request, newId: Id) returns (longer: seq<Action>)
    requires id !in sys.requests && newId !in sys.db.registrations
    requires Leads(sys, actions, With(sys, id, p)) && p.stage.Validated?
    requires p.competition.participantType.TeamBased? ==> p.dto.teamId.Some?
    ensures Leads(sys, longer, Concluded(sys, id, Row(p), newId, Outcome(sys.db, p)))
  {
    longer := CheckLeaderAlone(sys, actions, id, p);
    if !QuotaFull(sys.db, p.user) {
      if p.competition.participantType.TeamBased? {
        longer := TeamAlone(sys, longer, id, p, newId);
      } else {
        longer := SaveAlone(sys, longer, id, Staged(p, Loaded([])), newId);
      }
    }
  }

  /** The steps of a register request, taken without interruption, do what the atomic request does and give
      the same answer, whatever else is in flight. */
  lemma {:induction false} UninterruptedIsAtomic(sys: System, user: Id, dto: RegisterDto, now: Time, newId: Id, id: Id)
    returns (actions: seq<Action>)
    requires id !in sys.requests && id !in sys.answers && newId !in sys.db.registrations
    ensures PossibleRun(sys, actions)
    ensures RunAll(sys, actions) == sys.(db := Next(sys.db, Register(user, dto, now, newId)),
                                         answers := sys.answers[id := RegisterVerdict(sys.db, user, dto, now)])
  {
    actions := BeginAlone(sys, user, dto, now, id);
    if AdmissionVerdict(sys.db, user, dto, now).None? {
      var p := Request(user, dto, sys.db.competitions[dto.competitionId], Validated);
      actions := AdmittedAlone(sys, actions, id, p, newId);
    }
  }

  /** So do the two steps of a disband request. */
  lemma {:induction false} UninterruptedDisbandIsAtomic(sys: System, user: Id, id: Id) returns (actions: seq<Action>)
    requires id !in sys.disbands
    ensures PossibleRun(sys, actions)
    ensures RunAll(sys, actions) == sys.(db := Next(sys.db, Disband(user)))
  {
    assert Leads(sys, [], sys);
    LeadsOn(sys, [], sys, BeginDisband(id, user));
    actions := [] + [BeginDisband(id, user)];
    if DisbandVerdict(sys.db, user).None? {
      var found := TeamOf(sys.db.teams, user).value;
      assert sys.disbands[id := Disbanding(user, found)] - {id} == sys.disbands;
      LeadsOn(sys, actions, sys.(disbands := sys.disbands[id := Disbanding(user, found)]), FinishDisband(id));
      actions := actions + [FinishDisband(id)];
    }
  }
}
