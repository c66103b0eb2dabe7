/** Three runs of overlapping requests from an empty festival: one registration too many, one refused with
    the wrong answer, one lost. */
module OverlapExamples {
  import opened Wrappers
  import opened Entities
  import opened Teams
  import opened Registrations
  import opened Steps
  import opened Quota
  import opened Interleaving
  import opened Losses
  import opened Scenarios
  import Examples = QuotaExamples

  // ---------- two register requests of one user ----------

  /** An individual request that has passed the duplicate check but not yet the quota check. */
  ghost predicate AboutToCheck(sys: System, p: Id, user: Id) {
    && p in sys.requests && sys.requests[p].user == user && sys.requests[p].stage.Validated?
    && sys.requests[p].competition.participantType.Individual?
    && !ClashesWithTable(sys.db.registrations, Row(sys.requests[p]))
  }

  lemma CheckPasses(sys: System, p: Id, user: Id)
    requires AboutToCheck(sys, p, user) && !QuotaFull(sys.db, user)
    ensures Possible(sys, CheckLeader(p))
    ensures After(sys, CheckLeader(p)) == Advanced(sys, p, Loaded([]))
  {
  }

  /** A request whose row the database accepts. */
  ghost predicate AboutToSave(sys: System, p: Id, user: Id) {
    && p in sys.requests && sys.requests[p].stage == Loaded([])
    && Row(sys.requests[p]).userId == Some(user)
    && InsertAccepted(sys.db, Row(sys.requests[p]))
  }

  lemma SaveSucceeds(sys: System, p: Id, newId: Id, user: Id)
    requires AboutToSave(sys, p, user) && newId !in sys.db.registrations
    ensures Possible(sys, Save(p, newId))
    ensures After(sys, Save(p, newId)) == Ended(sys, p, None).(db := Insert(sys.db, newId, Row(sys.requests[p])))
    ensures Active(After(sys, Save(p, newId)).db, user) == Active(sys.db, user) + 1
  {
    InsertCount(sys.db, newId, Row(sys.requests[p]), user);
  }

  /** The two checks come before the two saves, and both saves succeed. */
  lemma BothSave(sys: System, p: Id, q: Id, newP: Id, newQ: Id, user: Id)
    requires AboutToSave(sys, p, user) && AboutToSave(sys, q, user) && p != q
    requires sys.requests[p].dto.competitionId != sys.requests[q].dto.competitionId
    requires newP !in sys.db.registrations && newQ !in sys.db.registrations && newP != newQ
    ensures Possible(sys, Save(p, newP)) && Possible(After(sys, Save(p, newP)), Save(q, newQ))
    ensures Active(After(After(sys, Save(p, newP)), Save(q, newQ)).db, user) == Active(sys.db, user) + 2
  {
    var rowP, rowQ := Row(sys.requests[p]), Row(sys.requests[q]);
    SaveSucceeds(sys, p, newP, user);
    assert !Clash(rowP, rowQ);
    SaveSucceeds(Ended(sys, p, None).(db := Insert(sys.db, newP, rowP)), q, newQ, user);
  }

  lemma FourActions(sys: System, a: Action, b: Action, c: Action, d: Action)
    requires Possible(sys, a) && Possible(After(sys, a), b)
    requires Possible(After(After(sys, a), b), c)
    requires Possible(After(After(After(sys, a), b), c), d)
    ensures PossibleRun(sys, [a] + [b] + [c] + [d])
    ensures RunAll(sys, [a] + [b] + [c] + [d]) == After(After(After(After(sys, a), b), c), d)
  {
    assert [] + [a] == [a];
    RunAllExtends(sys, [], a);
    RunAllExtends(sys, [a], b);
    RunAllExtends(sys, [a] + [b], c);
    RunAllExtends(sys, [a] + [b] + [c], d);
  }

  /** Two overlapping requests of a user with two active registrations both pass the check and both save. */
  lemma TwoAtOnce(sys: System, p: Id, q: Id, newP: Id, newQ: Id, user: Id) returns (actions: seq<Action>)
    requires AboutToCheck(sys, p, user) && AboutToCheck(sys, q, user) && p != q
    requires Active(sys.db, user) == 2 && user in sys.db.users
    requires sys.requests[p].dto.competitionId != sys.requests[q].dto.competitionId
    requires newP !in sys.db.registrations && newQ !in sys.db.registrations && newP != newQ
    ensures PossibleRun(sys, actions) && Active(RunAll(sys, actions).db, user) == QUOTA + 1
  {
    CheckPasses(sys, p, user);
    var s1 := Advanced(sys, p, Loaded([]));
    CheckPasses(s1, q, user);
    BothSave(Advanced(s1, q, Loaded([])), p, q, newP, newQ, user);
    FourActions(sys, CheckLeader(p), CheckLeader(q), Save(p, newP), Save(q, newQ));
    actions := [CheckLeader(p)] + [CheckLeader(q)] + [Save(p, newP)] + [Save(q, newQ)];
  }

  function RequestOf(db: Db, user: Id, competition: Id): Request
    requires competition in db.competitions
  {
    Request(user, RegisterDto(competition, WAVE, None), db.competitions[competition], Validated)
  }

  lemma Begins(sys: System, p: Id, user: Id, competition: Id)
    requires p !in sys.requests && p !in sys.answers
    requires IsUser(sys.db, user) && CanEnter(sys.db, competition) && competition !in Taken(sys.db)
    ensures
      var a := Begin(p, user, RegisterDto(competition, WAVE, None), 1);
      && Possible(sys, a)
      && After(sys, a) == sys.(requests := sys.requests[p := RequestOf(sys.db, user, competition)])
      && AboutToCheck(After(sys, a), p, user)
  {
    EntryAdmitted(sys.db, user, competition);
  }

  /** Two requests begin before either is checked. */
  lemma TwoBegin(sys: System, user: Id, c: Id, c': Id, p: Id, q: Id) returns (actions: seq<Action>)
    requires p != q && p !in sys.requests && p !in sys.answers && q !in sys.requests && q !in sys.answers
    requires IsUser(sys.db, user) && CanEnter(sys.db, c) && CanEnter(sys.db, c')
    requires c !in Taken(sys.db) && c' !in Taken(sys.db)
    ensures PossibleRun(sys, actions)
    ensures RunAll(sys, actions)
         == With(With(sys, p, RequestOf(sys.db, user, c)), q, RequestOf(sys.db, user, c'))
    ensures AboutToCheck(RunAll(sys, actions), p, user) && AboutToCheck(RunAll(sys, actions), q, user)
  {
    var a, b := Begin(p, user, RegisterDto(c, WAVE, None), 1), Begin(q, user, RegisterDto(c', WAVE, None), 1);
    Begins(sys, p, user, c);
    var one := With(sys, p, RequestOf(sys.db, user, c));
    Begins(one, q, user, c');
    RunAllExtends(sys, [], a);
    RunAllExtends(sys, [] + [a], b);
    actions := [] + [a] + [b];
  }

  /** One request after another: an entry that nobody interrupts. */
  lemma EntersAlone(sys: System, user: Id, competition: Id, id: Id) returns (actions: seq<Action>)
    requires id !in sys.requests && id !in sys.answers && id !in sys.db.registrations
    requires IsUser(sys.db, user) && CanEnter(sys.db, competition)
    requires competition !in Taken(sys.db) && Active(sys.db, user) < QUOTA
    ensures PossibleRun(sys, actions)
    ensures RunAll(sys, actions)
         == sys.(db := Insert(sys.db, id, Entry(user, competition)), answers := sys.answers[id := None])
  {
    actions := UninterruptedIsAtomic(sys, user, RegisterDto(competition, WAVE, None), 1, id, id);
    EnterEffect(sys.db, user, competition, id);
  }

  /** The user has entered two competitions, one after the other. */
  ghost function TwiceEntered(f: Db, user: Id, n: Names): System {
    var db := Insert(Insert(f, n.r1, Entry(user, n.c1)), n.r2, Entry(user, n.c2));
    Idle(db).(answers := map[n.r1 := None, n.r2 := None])
  }

  lemma EntersTwice(f: Db, user: Id, n: Names) returns (actions: seq<Action>)
    requires Playground(f, user, n)
    ensures PossibleRun(Idle(f), actions) && RunAll(Idle(f), actions) == TwiceEntered(f, user, n)
    ensures Active(TwiceEntered(f, user, n).db, user) == 2 && Taken(TwiceEntered(f, user, n).db) == {n.c1, n.c2}
  {
    assert ActiveRegs(f, user) == {} && Taken(f) == {};
    var first := EntersAlone(Idle(f), user, n.c1, n.r1);
    EntryCounts(f, user, n.c1, n.r1);
    var db := Insert(f, n.r1, Entry(user, n.c1));
    var once := Idle(db).(answers := map[n.r1 := None]);
    var second := EntersAlone(once, user, n.c2, n.r2);
    EntryCounts(db, user, n.c2, n.r2);
    RunAllAppends(Idle(f), first, second);
    actions := first + second;
  }

  /** From an empty festival: a user enters two competitions one after the other, and then two more at
      once. Both late requests find two active registrations and both save: four. */
  lemma {:induction false} OverlapExceedsQuota(f: Db, user: Id, n: Names) returns (actions: seq<Action>)
    requires Playground(f, user, n)
    ensures Init(f) && PossibleRun(Idle(f), actions)
    ensures Active(RunAll(Idle(f), actions).db, user) == QUOTA + 1
  {
    var twice := EntersTwice(f, user, n);
    var sys := TwiceEntered(f, user, n);
    var begun := TwoBegin(sys, user, n.c3, n.c4, n.r3, n.r4);
    var rest := TwoAtOnce(RunAll(sys, begun), n.r3, n.r4, n.r3, n.r4, user);
    RunAllAppends(sys, begun, rest);
    RunAllAppends(Idle(f), twice, begun + rest);
    actions := twice + (begun + rest);
  }

  // ---------- two register requests for one competition ----------

  /** Both have passed every check; the first saves, and the unique index refuses the second. */
  lemma SecondIsRefused(sys: System, p: Id, q: Id, newP: Id, newQ: Id, user: Id)
    requires AboutToSave(sys, p, user) && AboutToSave(sys, q, user) && p != q && p !in sys.answers
    requires sys.requests[p].dto.competitionId == sys.requests[q].dto.competitionId
    requires newP !in sys.db.registrations && newQ !in sys.db.registrations && newP != newQ
    ensures
      var one := Ended(sys, p, None).(db := Insert(sys.db, newP, Row(sys.requests[p])));
      && Possible(sys, Save(p, newP)) && After(sys, Save(p, newP)) == one
      && Possible(one, Save(q, newQ)) && After(one, Save(q, newQ)) == Ended(one, q, Some(SaveFailed))
  {
    SaveSucceeds(sys, p, newP, user);
    var rowP, rowQ := Row(sys.requests[p]), Row(sys.requests[q]);
    assert Clash(rowP, rowQ);
    var one := Insert(sys.db, newP, rowP);
    assert one.registrations[newP] == rowP;
    assert ClashesWithTable(one.registrations, rowQ);
  }

  /** From an empty festival: a user sends two requests for one competition at once. Both pass the duplicate
      check; the second save is refused, and not with the answer for duplicates. */
  lemma {:induction false} LostRaceIsAnInternalError(f: Db, user: Id, n: Names) returns (actions: seq<Action>)
    requires Playground(f, user, n)
    ensures Init(f) && PossibleRun(Idle(f), actions)
    ensures
      var final := RunAll(Idle(f), actions);
      && final.requests == map[] && final.db.registrations == map[n.r1 := Entry(user, n.c1)]
      && final.answers == map[n.r1 := None, n.r2 := Some(SaveFailed)]
  {
    assert ActiveRegs(f, user) == {} && Taken(f) == {};
    var begun := TwoBegin(Idle(f), user, n.c1, n.c1, n.r1, n.r2);
    var s0 := RunAll(Idle(f), begun);
    CheckPasses(s0, n.r1, user);
    var s1 := Advanced(s0, n.r1, Loaded([]));
    CheckPasses(s1, n.r2, user);
    var s2 := Advanced(s1, n.r2, Loaded([]));
    SecondIsRefused(s2, n.r1, n.r2, n.r1, n.r2, user);
    FourActions(s0, CheckLeader(n.r1), CheckLeader(n.r2), Save(n.r1, n.r1), Save(n.r2, n.r2));
    var rest := [CheckLeader(n.r1)] + [CheckLeader(n.r2)] + [Save(n.r1, n.r1)] + [Save(n.r2, n.r2)];
    RunAllAppends(Idle(f), begun, rest);
    actions := begun + rest;
  }

  // ---------- a register request and a disband of one team ----------

  function TeamDto(competition: Id): RegisterDto {
    RegisterDto(competition, WAVE, Some(Examples.TEAM))
  }

  function TeamRequest(db: Db, leader: Id, competition: Id, stage: Stage): Request
    requires competition in db.competitions
  {
    Request(leader, TeamDto(competition), db.competitions[competition], stage)
  }

  ghost predicate LoneTeam(f: Db, leader: Id, competition: Id) {
    && Init(f) && IsUser(f, leader) && Examples.HasSchool(f, leader)
    && Examples.TeamCanEnter(f, competition)
  }

  /** The leader's team exists and its register request `p` has passed every check. */
  lemma TeamIsChecked(f: Db, leader: Id, competition: Id, p: Id) returns (actions: seq<Action>)
    requires LoneTeam(f, leader, competition)
    ensures PossibleRun(Idle(f), actions)
    ensures
      var db := Examples.WithTeam(f, leader);
      RunAll(Idle(f), actions) == With(Idle(db), p, TeamRequest(db, leader, competition, Loaded([])))
  {
    var db := Examples.WithTeam(f, leader);
    Examples.TeamAdmitted(f, leader, competition);
    var create := Other(CreateTeam(leader, "we", Examples.TEAM));
    RunAllExtends(Idle(f), [], create);
    assert RunAll(Idle(f), [] + [create]) == Idle(db);
    var checks := TeamChecks(db, leader, competition, p);
    RunAllAppends(Idle(f), [] + [create], checks);
    actions := [] + [create] + checks;
  }

  lemma TeamChecks(db: Db, leader: Id, competition: Id, p: Id) returns (actions: seq<Action>)
    requires AdmissionVerdict(db, leader, TeamDto(competition), 1).None? && !QuotaFull(db, leader)
    requires Examples.TeamCanEnter(db, competition)
    requires Examples.TEAM in db.teams && db.teams[Examples.TEAM].leaderId == leader
    requires db.teams[Examples.TEAM].members == []
    ensures PossibleRun(Idle(db), actions)
    ensures RunAll(Idle(db), actions) == With(Idle(db), p, TeamRequest(db, leader, competition, Loaded([])))
  {
    actions := BeginAlone(Idle(db), leader, TeamDto(competition), 1, p);
    var r := TeamRequest(db, leader, competition, Validated);
    actions := CheckLeaderAlone(Idle(db), actions, p, r);
    var checked := Staged(r, LeaderChecked);
    LeadsOn(Idle(db), actions, With(Idle(db), p, checked), LoadTeam(p));
    AloneMoves(Idle(db), p, checked, Loaded([]), None);
    actions := actions + [LoadTeam(p)];
  }

  /** The last three actions: the disband looks, the register request saves, the disband deletes. */
  lemma DisbandAroundSave(db: Db, leader: Id, p: Id, r: Request, d: Id, id: Id)
    requires db.registrations == map[] && db.teams.Keys == {Examples.TEAM}
    requires db.teams[Examples.TEAM].leaderId == leader
    requires r.stage == Loaded([]) && Row(r).teamId == Some(Examples.TEAM) && Row(r).userId == None
    ensures
      var s0 := With(Idle(db), p, r);
      var s1 := s0.(disbands := map[d := Disbanding(leader, Examples.TEAM)]);
      var s2 := s1.(db := Insert(db, id, Row(r)), requests := map[], answers := map[p := None]);
      && Possible(s0, BeginDisband(d, leader)) && After(s0, BeginDisband(d, leader)) == s1
      && Possible(s1, Save(p, id)) && After(s1, Save(p, id)) == s2
      && Possible(s2, FinishDisband(d))
      && id !in After(s2, FinishDisband(d)).db.registrations && After(s2, FinishDisband(d)).answers == s2.answers
      && Examples.TEAM !in After(s2, FinishDisband(d)).db.teams
  {
    assert OnTeam(db.teams[Examples.TEAM], leader);
    assert TeamOf(db.teams, leader) == Some(Examples.TEAM);
    assert map[p := r] - {p} == map[];
  }

  /** From an empty festival: a leader founds a team, registers it and disbands it at the same time. The
      register request saves between the disband's look and its delete, and its row is gone afterwards,
      with no refusal on either side. */
  lemma {:induction false} DisbandLosesRegistration(f: Db, leader: Id, competition: Id, p: Id, d: Id, id: Id)
    returns (actions: seq<Action>)
    requires LoneTeam(f, leader, competition)
    ensures Init(f) && PossibleRun(Idle(f), actions) && |actions| > 0
    ensures id in StateAt(Idle(f), actions, |actions| - 1).registrations
    ensures id !in RunAll(Idle(f), actions).db.registrations
    ensures Examples.TEAM !in RunAll(Idle(f), actions).db.teams
    ensures RunAll(Idle(f), actions).answers == map[p := None]
  {
    var db := Examples.WithTeam(f, leader);
    var checked := TeamIsChecked(f, leader, competition, p);
    var r := TeamRequest(db, leader, competition, Loaded([]));
    assert Examples.TEAM != NO_ID by { assert "team"[0] == 't'; }
    DisbandAroundSave(db, leader, p, r, d, id);
    RunAllExtends(Idle(f), checked, BeginDisband(d, leader));
    var looked := checked + [BeginDisband(d, leader)];
    RunAllExtends(Idle(f), looked, Save(p, id));
    var saved := looked + [Save(p, id)];
    RunAllExtends(Idle(f), saved, FinishDisband(d));
    actions := saved + [FinishDisband(d)];
    assert actions[..|actions| - 1] == saved;
  }

  /** Such a festival exists. */
  lemma LoneTeamExists() returns (f: Db, leader: Id, competition: Id)
    ensures LoneTeam(f, leader, competition)
  {
    var newcomer, n;
    f, leader, newcomer, n := Examples.TeamPlaygroundExists();
    competition := n.c4;
  }
}
