/** The quota of three is not an invariant: two ways past it without any overlap of requests. */
module QuotaExamples {
  import opened Wrappers
  import opened Entities
  import opened Teams
  import opened Registrations
  import opened Steps
  import opened Runs
  import opened Quota
  import opened Scenarios

  // ---------- a rejected registration comes back ----------

  /** The user has one registration, which is rejected. */
  ghost predicate OnlyRejected(f: Db, db: Db, user: Id, n: Names) {
    && db.users == f.users && db.competitions == f.competitions && db.submissions == map[]
    && n.f2 !in db.files && n.k2 !in db.blobs
    && Active(db, user) == 0
    && db.registrations.Keys == {n.r1} && Taken(db) == {n.c1}
    && AwaitsProof(db, user, n.r1, 4) && db.registrations[n.r1].status == Rejected
  }

  lemma FirstIsRejected(f: Db, user: Id, n: Names) returns (steps: seq<Step>)
    requires Playground(f, user, n)
    ensures ValidRun(f, steps) && OnlyRejected(f, Run(f, steps), user, n)
  {
    steps := FirstIsProved(f, user, n);
    steps := DecisionNext(f, user, steps, n.r1, BLURRED, 3);
    OneRowTakes(Run(f, steps), n.r1);
  }

  lemma OneRowTakes(db: Db, id: Id)
    requires db.registrations.Keys == {id}
    ensures Taken(db) == {db.registrations[id].competitionId}
  {
    assert id in db.registrations;
    assert forall r | r in db.registrations :: r == id;
  }

  /** After some more entries: the first registration is as it was, and the user is active in `k` others. */
  ghost predicate Refilled(f: Db, first: Db, db: Db, user: Id, n: Names, ids: set<Id>, taken: set<Id>, k: nat) {
    && db.users == f.users && db.competitions == f.competitions && db.submissions == map[]
    && db.files == first.files && db.blobs == first.blobs
    && n.r1 in first.registrations && n.r1 in db.registrations
    && db.registrations[n.r1] == first.registrations[n.r1]
    && db.registrations.Keys == ids && Taken(db) == taken && Active(db, user) == k
  }

  lemma EnterMore(f: Db, first: Db, user: Id, n: Names, steps: seq<Step>, ids: set<Id>, taken: set<Id>, k: nat,
                  competition: Id, id: Id)
    returns (longer: seq<Step>)
    requires ValidRun(f, steps) && Refilled(f, first, Run(f, steps), user, n, ids, taken, k)
    requires IsUser(f, user) && CanEnter(f, competition)
    requires id !in ids && competition !in taken && k < QUOTA
    ensures ValidRun(f, longer)
    ensures Refilled(f, first, Run(f, longer), user, n, ids + {id}, taken + {competition}, k + 1)
  {
    longer := EnterNext(f, user, steps, competition, id);
  }

  lemma OneMoreEnters(f: Db, user: Id, n: Names, first: seq<Step>) returns (steps: seq<Step>)
    requires Playground(f, user, n) && ValidRun(f, first) && OnlyRejected(f, Run(f, first), user, n)
    ensures ValidRun(f, steps)
    ensures Refilled(f, Run(f, first), Run(f, steps), user, n, {n.r1, n.r2}, {n.c1, n.c2}, 1)
  {
    steps := EnterMore(f, Run(f, first), user, n, first, {n.r1}, {n.c1}, 0, n.c2, n.r2);
    assert {n.r1} + {n.r2} == {n.r1, n.r2} && {n.c1} + {n.c2} == {n.c1, n.c2};
  }

  lemma TwoMoreEnter(f: Db, first: Db, user: Id, n: Names, one: seq<Step>) returns (steps: seq<Step>)
    requires Playground(f, user, n) && ValidRun(f, one)
    requires Refilled(f, first, Run(f, one), user, n, {n.r1, n.r2}, {n.c1, n.c2}, 1)
    ensures ValidRun(f, steps)
    ensures Refilled(f, first, Run(f, steps), user, n, {n.r1, n.r2, n.r3}, {n.c1, n.c2, n.c3}, 2)
  {
    steps := EnterMore(f, first, user, n, one, {n.r1, n.r2}, {n.c1, n.c2}, 1, n.c3, n.r3);
    assert {n.r1, n.r2} + {n.r3} == {n.r1, n.r2, n.r3} && {n.c1, n.c2} + {n.c3} == {n.c1, n.c2, n.c3};
  }

  lemma ThreeMoreEnter(f: Db, first: Db, user: Id, n: Names, two: seq<Step>) returns (steps: seq<Step>)
    requires Playground(f, user, n) && ValidRun(f, two)
    requires Refilled(f, first, Run(f, two), user, n, {n.r1, n.r2, n.r3}, {n.c1, n.c2, n.c3}, 2)
    ensures ValidRun(f, steps)
    ensures Refilled(f, first, Run(f, steps), user, n,
                     {n.r1, n.r2, n.r3} + {n.r4}, {n.c1, n.c2, n.c3} + {n.c4}, QUOTA)
  {
    steps := EnterMore(f, first, user, n, two, {n.r1, n.r2, n.r3}, {n.c1, n.c2, n.c3}, 2, n.c4, n.r4);
  }

  /** A rejected registration frees a place; filling it and then sending a new proof makes four. */
  lemma RevivalExceedsQuota(f: Db, user: Id, n: Names) returns (steps: seq<Step>)
    requires Playground(f, user, n)
    ensures Init(f) && ValidRun(f, steps)
    ensures Active(Run(f, steps), user) == 4
  {
    var first := FirstIsRejected(f, user, n);
    steps := OneMoreEnters(f, user, n, first);
    steps := TwoMoreEnter(f, Run(f, first), user, n, steps);
    steps := ThreeMoreEnter(f, Run(f, first), user, n, steps);
    steps := ProofNext(f, user, steps, n.r1, n.f2, n.k2, 4);
  }

  // ---------- a member joins late ----------

  /** Three open individual competitions and one for teams of any size; the leader and the newcomer come
      from the same school. */
  ghost predicate TeamPlayground(f: Db, leader: Id, newcomer: Id, n: Names) {
    && Init(f) && IsUser(f, leader) && IsUser(f, newcomer) && leader != newcomer && DistinctNames(n)
    && CanEnter(f, n.c1) && CanEnter(f, n.c2) && CanEnter(f, n.c3) && TeamCanEnter(f, n.c4)
    && HasSchool(f, leader) && f.users[newcomer].institution == f.users[leader].institution
  }

  predicate HasSchool(db: Db, user: Id) {
    user in db.users && db.users[user].institution.text != "" && FitsTeam(db.users[user].institution)
  }

  predicate TeamCanEnter(db: Db, competition: Id) {
    && competition in db.competitions && OpenAt1(db.competitions[competition])
    && db.competitions[competition].participantType.TeamBased?
    && db.competitions[competition].minTeamMembers == 1 && db.competitions[competition].maxTeamMembers == 3
  }

  const TEAM := Id("team")

  function TeamEntry(competition: Id): Registration {
    Registration(competition, WAVE, None, Some(TEAM), PendingPayment, [])
  }

  ghost function WithTeam(f: Db, leader: Id): Db
    requires leader in f.users
  {
    f.(teams := map[TEAM := NewTeam(f, leader, "we")])
  }

  lemma TeamIsCreated(f: Db, leader: Id) returns (steps: seq<Step>)
    requires Init(f) && IsUser(f, leader) && HasSchool(f, leader)
    ensures ValidRun(f, steps) && Run(f, steps) == WithTeam(f, leader)
  {
    RunExtends(f, [], CreateTeam(leader, "we", TEAM));
    steps := [] + [CreateTeam(leader, "we", TEAM)];
  }

  lemma TeamAdmitted(f: Db, leader: Id, competition: Id)
    requires Init(f) && IsUser(f, leader) && TeamCanEnter(f, competition)
    ensures AdmissionVerdict(WithTeam(f, leader), leader, RegisterDto(competition, WAVE, Some(TEAM)), 1).None?
    ensures !QuotaFull(WithTeam(f, leader), leader)
  {
    var db := WithTeam(f, leader);
    assert TEAM != NO_ID by { assert "team"[0] == 't'; }
    assert FindWave(db.competitions[competition].waves, WAVE) == Some(db.competitions[competition].waves[0]);
    assert ActiveRegs(db, leader) == {};
  }

  lemma TeamEnters(f: Db, leader: Id, competition: Id, id: Id) returns (steps: seq<Step>)
    requires Init(f) && IsUser(f, leader) && HasSchool(f, leader) && TeamCanEnter(f, competition)
    ensures ValidRun(f, steps)
    ensures Run(f, steps) == Insert(WithTeam(f, leader), id, TeamEntry(competition))
  {
    steps := TeamIsCreated(f, leader);
    TeamAdmitted(f, leader, competition);
    var s := Register(leader, RegisterDto(competition, WAVE, Some(TEAM)), 1, id);
    RunExtends(f, steps, s);
    steps := steps + [s];
  }

  /** The newcomer is active in `k` competitions and on no team; the leader's team has one registration. */
  ghost predicate Apart(f: Db, db: Db, leader: Id, newcomer: Id, n: Names, ids: set<Id>, taken: set<Id>, k: nat)
    requires leader in f.users
  {
    && db.users == f.users && db.competitions == f.competitions && db.teams == WithTeam(f, leader).teams
    && db.registrations.Keys == ids && Taken(db) == taken
    && Active(db, newcomer) == k && TeamActive(db, TEAM) == {n.r4}
  }

  lemma ApartFirst(f: Db, leader: Id, newcomer: Id, n: Names) returns (steps: seq<Step>)
    requires TeamPlayground(f, leader, newcomer, n)
    ensures ValidRun(f, steps) && Apart(f, Run(f, steps), leader, newcomer, n, {n.r4}, {n.c4}, 0)
  {
    steps := TeamEnters(f, leader, n.c4, n.r4);
    var db := Run(f, steps);
    OneRowTakes(db, n.r4);
    assert ActiveRegs(db, newcomer) == {};
  }

  lemma ApartNext(f: Db, leader: Id, newcomer: Id, n: Names, steps: seq<Step>, ids: set<Id>, taken: set<Id>, k: nat,
                  competition: Id, id: Id)
    returns (longer: seq<Step>)
    requires leader in f.users && IsUser(f, newcomer) && CanEnter(f, competition)
    requires ValidRun(f, steps) && Apart(f, Run(f, steps), leader, newcomer, n, ids, taken, k)
    requires id !in ids && competition !in taken && k < QUOTA
    ensures ValidRun(f, longer)
    ensures Apart(f, Run(f, longer), leader, newcomer, n, ids + {id}, taken + {competition}, k + 1)
  {
    longer := EnterNext(f, newcomer, steps, competition, id);
    EntryIsNoTeams(Run(f, steps), id, newcomer, competition);
  }

  lemma EntryIsNoTeams(db: Db, id: Id, user: Id, competition: Id)
    requires id !in db.registrations
    ensures TeamActive(Insert(db, id, Entry(user, competition)), TEAM) == TeamActive(db, TEAM)
  {
  }

  lemma ApartOnce(f: Db, leader: Id, newcomer: Id, n: Names) returns (steps: seq<Step>)
    requires TeamPlayground(f, leader, newcomer, n)
    ensures ValidRun(f, steps)
    ensures Apart(f, Run(f, steps), leader, newcomer, n, {n.r1, n.r4}, {n.c1, n.c4}, 1)
  {
    steps := ApartFirst(f, leader, newcomer, n);
    steps := ApartNext(f, leader, newcomer, n, steps, {n.r4}, {n.c4}, 0, n.c1, n.r1);
    assert {n.r4} + {n.r1} == {n.r1, n.r4} && {n.c4} + {n.c1} == {n.c1, n.c4};
  }

  lemma ApartTwice(f: Db, leader: Id, newcomer: Id, n: Names, one: seq<Step>) returns (steps: seq<Step>)
    requires TeamPlayground(f, leader, newcomer, n) && ValidRun(f, one)
    requires Apart(f, Run(f, one), leader, newcomer, n, {n.r1, n.r4}, {n.c1, n.c4}, 1)
    ensures ValidRun(f, steps)
    ensures Apart(f, Run(f, steps), leader, newcomer, n, {n.r1, n.r2, n.r4}, {n.c1, n.c2, n.c4}, 2)
  {
    steps := ApartNext(f, leader, newcomer, n, one, {n.r1, n.r4}, {n.c1, n.c4}, 1, n.c2, n.r2);
    assert {n.r1, n.r4} + {n.r2} == {n.r1, n.r2, n.r4} && {n.c1, n.c4} + {n.c2} == {n.c1, n.c2, n.c4};
  }

  lemma ApartThrice(f: Db, leader: Id, newcomer: Id, n: Names, two: seq<Step>) returns (steps: seq<Step>)
    requires TeamPlayground(f, leader, newcomer, n) && ValidRun(f, two)
    requires Apart(f, Run(f, two), leader, newcomer, n, {n.r1, n.r2, n.r4}, {n.c1, n.c2, n.c4}, 2)
    ensures ValidRun(f, steps)
    ensures Apart(f, Run(f, steps), leader, newcomer, n,
                  {n.r1, n.r2, n.r4} + {n.r3}, {n.c1, n.c2, n.c4} + {n.c3}, QUOTA)
  {
    steps := ApartNext(f, leader, newcomer, n, two, {n.r1, n.r2, n.r4}, {n.c1, n.c2, n.c4}, 2, n.c3, n.r3);
  }

  /** A user with three registrations of their own joins a team that is registered: four. */
  lemma {:induction false} JoinExceedsQuota(f: Db, leader: Id, newcomer: Id, n: Names) returns (steps: seq<Step>)
    requires TeamPlayground(f, leader, newcomer, n)
    ensures Init(f) && ValidRun(f, steps)
    ensures Active(Run(f, steps), newcomer) == 4
  {
    var before := ApartOnce(f, leader, newcomer, n);
    before := ApartTwice(f, leader, newcomer, n, before);
    before := ApartThrice(f, leader, newcomer, n, before);
    InitHolds(f);
    RunKeepsInv(f, before);
    var s := AddMember(leader, f.users[newcomer].email);
    LastJoin(f, Run(f, before), leader, newcomer, n);
    RunExtends(f, before, s);
    steps := before + [s];
  }

  lemma LastJoin(f: Db, db: Db, leader: Id, newcomer: Id, n: Names)
    requires TeamPlayground(f, leader, newcomer, n) && RegistrationInv(db)
    requires db.users == f.users && db.teams == WithTeam(f, leader).teams
    requires Active(db, newcomer) == QUOTA && TeamActive(db, TEAM) == {n.r4}
    ensures Active(Next(db, AddMember(leader, f.users[newcomer].email)), newcomer) == 4
  {
    var s := AddMember(leader, f.users[newcomer].email);
    MayAdd(f, db, leader, newcomer);
    AddMemberCount(db, s, newcomer);
  }

  lemma MayAdd(f: Db, db: Db, leader: Id, newcomer: Id)
    requires leader in f.users && newcomer in f.users && leader != newcomer && EmailsDistinct(f.users)
    requires HasSchool(f, leader) && f.users[newcomer].institution == f.users[leader].institution
    requires db.users == f.users && db.teams == WithTeam(f, leader).teams
    ensures Accepted(db, AddMember(leader, f.users[newcomer].email))
    ensures UserByEmail(db.users, f.users[newcomer].email) == Some(newcomer) && TeamOf(db.teams, leader) == Some(TEAM)
  {
    var found := UserByEmail(db.users, f.users[newcomer].email);
    assert EmailKnown(db.users, f.users[newcomer].email);
    assert SameEmail(db.users[found.value], db.users[newcomer]);
    assert OnTeam(db.teams[TEAM], leader);
    assert !HasTeam(db.teams, newcomer);
  }

  /** Such a festival exists. */
  lemma TeamPlaygroundExists() returns (f: Db, leader: Id, newcomer: Id, n: Names)
    ensures TeamPlayground(f, leader, newcomer, n)
  {
    var c := Competition("open", Individual, 1, 1, None, false, true, [Wave(WAVE, "early", 0.0, 0, 100)], None);
    var t := c.(participantType := TeamBased, maxTeamMembers := 3);
    var a, b, d, e := Id("a"), Id("b"), Id("d"), Id("e");
    assert "a"[0] == 'a' && "b"[0] == 'b' && "d"[0] == 'd' && "e"[0] == 'e';
    leader, newcomer := a, b;
    var school := Institution("School", "school");
    f := Db(map[a := User("a", school), b := User("b", school)], map[], map[a := c, b := c, d := c, e := t],
            map[], map[], map[], {});
    n := Names(a, b, d, e, a, b, d, e, a, b, "a", "b");
    assert SameEmail(f.users[a], f.users[b]) == false;
  }
}
