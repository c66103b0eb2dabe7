/** A small festival and the requests that the examples are made of. */
module Scenarios {
  import opened Wrappers
  import opened Entities
  import opened Registrations
  import opened Steps
  import opened Runs
  import opened Quota

  const WAVE := Id("wave")
  const TREASURER := Id("treasurer")
  const BLURRED := VerifyDto(Reject, Some("blurred"))
  const PAID := VerifyDto(Approve, None)

  /** A competition that takes registrations at time 1. */
  predicate OpenAt1(c: Competition) {
    c.waves != [] && c.waves[0].id == WAVE && c.waves[0].startDate <= 1 <= c.waves[0].endDate
  }

  /** Four competitions, and the ids and blob keys that the system will generate. */
  datatype Names = Names(
    c1: Id, c2: Id, c3: Id, c4: Id,
    r1: Id, r2: Id, r3: Id, r4: Id,
    f1: Id, f2: Id, k1: string, k2: string)

  predicate Distinct(a: Id, b: Id, c: Id, d: Id) {
    a != b && a != c && a != d && b != c && b != d && c != d
  }

  predicate DistinctNames(n: Names) {
    Distinct(n.c1, n.c2, n.c3, n.c4) && Distinct(n.r1, n.r2, n.r3, n.r4) && n.f1 != n.f2 && n.k1 != n.k2
  }

  ghost predicate CanEnter(db: Db, competition: Id) {
    && competition in db.competitions && OpenAt1(db.competitions[competition])
    && db.competitions[competition].participantType.Individual?
  }

  predicate IsUser(db: Db, user: Id) {
    user in db.users && user != NO_ID
  }

  /** A festival before its first request, with a user and four open individual competitions. */
  ghost predicate Playground(f: Db, user: Id, n: Names) {
    && Init(f) && f.blobs == {} && IsUser(f, user) && DistinctNames(n)
    && CanEnter(f, n.c1) && CanEnter(f, n.c2) && CanEnter(f, n.c3) && CanEnter(f, n.c4)
  }

  /** The competitions that have a registration. */
  ghost function Taken(db: Db): set<Id> {
    set r | r in db.registrations :: db.registrations[r].competitionId
  }

  // ---------- the requests ----------

  function Enter(user: Id, competition: Id, id: Id): Step {
    Register(user, RegisterDto(competition, WAVE, None), 1, id)
  }

  function Proof(user: Id, id: Id, file: Id, key: string, now: Time): Step {
    UploadProof(id, user, Valid(file, key, key), file, now)
  }

  function Decision(id: Id, decision: VerifyDto, now: Time): Step {
    VerifyPayment(id, TREASURER, decision, now)
  }

  function Entry(user: Id, competition: Id): Registration {
    Registration(competition, WAVE, Some(user), None, PendingPayment, [])
  }

  ghost function AfterProofOf(db: Db, user: Id, id: Id, file: Id, key: string, now: Time): Db
    requires id in db.registrations
  {
    db.(registrations := db.registrations[id := WithProof(db.registrations[id], file, Valid(file, key, key), now)],
        files := db.files[file := StoredFile(user, key, key)],
        blobs := db.blobs + {key})
  }

  ghost function AfterDecision(db: Db, id: Id, decision: VerifyDto, now: Time): Db
    requires id in db.registrations && db.registrations[id].attempts != []
  {
    db.(registrations := db.registrations[id := Decided(db.registrations[id], TREASURER, decision, now)])
  }

  // ---------- what they do ----------

  lemma EnterEffect(db: Db, user: Id, competition: Id, id: Id)
    requires IsUser(db, user) && CanEnter(db, competition) && id !in db.registrations
    requires competition !in Taken(db) && Active(db, user) < QUOTA
    ensures Accepted(db, Enter(user, competition, id))
    ensures Next(db, Enter(user, competition, id)) == Insert(db, id, Entry(user, competition))
  {
    EntryAdmitted(db, user, competition);
  }

  lemma EntryAdmitted(db: Db, user: Id, competition: Id)
    requires IsUser(db, user) && CanEnter(db, competition) && competition !in Taken(db)
    ensures AdmissionVerdict(db, user, RegisterDto(competition, WAVE, None), 1).None?
    ensures !ClashesWithTable(db.registrations, Entry(user, competition))
  {
    assert FindWave(db.competitions[competition].waves, WAVE) == Some(db.competitions[competition].waves[0]);
    assert forall r | r in db.registrations :: db.registrations[r].competitionId in Taken(db);
  }

  /** An entry takes its competition and adds one to the user's count. */
  lemma EntryCounts(db: Db, user: Id, competition: Id, id: Id)
    requires id !in db.registrations
    ensures
      var after := Insert(db, id, Entry(user, competition));
      && Taken(after) == Taken(db) + {competition}
      && Active(after, user) == Active(db, user) + 1
  {
    var after := Insert(db, id, Entry(user, competition));
    InsertCount(db, id, Entry(user, competition), user);
    assert forall r | r in db.registrations :: after.registrations[r] == db.registrations[r];
    assert after.registrations[id].competitionId == competition;
  }

  lemma ProofEffect(db: Db, user: Id, id: Id, file: Id, key: string, now: Time)
    requires user in db.users && id in db.registrations && db.registrations[id].userId == Some(user)
    requires db.registrations[id].status == PendingPayment || db.registrations[id].status == Rejected
    ensures Accepted(db, Proof(user, id, file, key, now))
    ensures Next(db, Proof(user, id, file, key, now)) == AfterProofOf(db, user, id, file, key, now)
  {
  }

  lemma DecisionEffect(db: Db, id: Id, decision: VerifyDto, now: Time)
    requires id in db.registrations && db.registrations[id].status == PendingVerification
    requires db.registrations[id].attempts != [] && (decision == BLURRED || decision == PAID)
    ensures Accepted(db, Decision(id, decision, now))
    ensures Next(db, Decision(id, decision, now)) == AfterDecision(db, id, decision, now)
  {
    assert !NoteMissing(BLURRED) by { assert "blurred"[0] == 'b'; }
  }

  // ---------- extending a run by one of them ----------

  lemma EnterNext(f: Db, user: Id, steps: seq<Step>, competition: Id, id: Id) returns (longer: seq<Step>)
    requires ValidRun(f, steps)
    requires IsUser(Run(f, steps), user) && CanEnter(Run(f, steps), competition)
    requires id !in Run(f, steps).registrations && competition !in Taken(Run(f, steps))
    requires Active(Run(f, steps), user) < QUOTA
    ensures ValidRun(f, longer)
    ensures Run(f, longer) == Insert(Run(f, steps), id, Entry(user, competition))
    ensures Taken(Run(f, longer)) == Taken(Run(f, steps)) + {competition}
    ensures Active(Run(f, longer), user) == Active(Run(f, steps), user) + 1
  {
    var db := Run(f, steps);
    EnterEffect(db, user, competition, id);
    EntryCounts(db, user, competition, id);
    RunExtends(f, steps, Enter(user, competition, id));
    longer := steps + [Enter(user, competition, id)];
  }

  ghost predicate AwaitsProof(db: Db, user: Id, id: Id, now: Time) {
    && id in db.registrations
    && var r := db.registrations[id];
       && r.userId == Some(user) && (r.status == PendingPayment || r.status == Rejected)
       && forall a | a in r.attempts :: a.uploadedAt < now
  }

  lemma ProofNext(f: Db, user: Id, steps: seq<Step>, id: Id, file: Id, key: string, now: Time)
    returns (longer: seq<Step>)
    requires ValidRun(f, steps) && user in Run(f, steps).users && Run(f, steps).submissions == map[]
    requires file !in Run(f, steps).files && key !in Run(f, steps).blobs
    requires AwaitsProof(Run(f, steps), user, id, now)
    ensures ValidRun(f, longer)
    ensures Run(f, longer) == AfterProofOf(Run(f, steps), user, id, file, key, now)
    ensures Active(Run(f, longer), user)
         == Active(Run(f, steps), user) + Count(Run(f, steps).registrations[id].status == Rejected)
  {
    var db := Run(f, steps);
    ProofEffect(db, user, id, file, key, now);
    RunExtends(f, steps, Proof(user, id, file, key, now));
    longer := steps + [Proof(user, id, file, key, now)];
    RewriteCount(db, Run(f, longer), id, Run(f, longer).registrations[id], user);
  }

  lemma DecisionNext(f: Db, user: Id, steps: seq<Step>, id: Id, decision: VerifyDto, now: Time)
    returns (longer: seq<Step>)
    requires ValidRun(f, steps) && id in Run(f, steps).registrations
    requires
      var r := Run(f, steps).registrations[id];
      r.userId == Some(user) && r.status == PendingVerification && r.attempts != []
    requires decision == BLURRED || decision == PAID
    ensures ValidRun(f, longer)
    ensures Run(f, longer) == AfterDecision(Run(f, steps), id, decision, now)
    ensures Active(Run(f, longer), user) == Active(Run(f, steps), user) - Count(decision == BLURRED)
  {
    var db := Run(f, steps);
    DecisionEffect(db, id, decision, now);
    RunExtends(f, steps, Decision(id, decision, now));
    longer := steps + [Decision(id, decision, now)];
    RewriteCount(db, Run(f, longer), id, Run(f, longer).registrations[id], user);
  }

  /** The user enters the first competition and sends a proof. */
  lemma FirstIsProved(f: Db, user: Id, n: Names) returns (steps: seq<Step>)
    requires Playground(f, user, n)
    ensures ValidRun(f, steps) && Active(Run(f, steps), user) == 1
    ensures Run(f, steps) == AfterProofOf(Insert(f, n.r1, Entry(user, n.c1)), user, n.r1, n.f1, n.k1, 2)
  {
    assert ActiveRegs(f, user) == {} && Taken(f) == {};
    steps := EnterNext(f, user, [], n.c1, n.r1);
    steps := ProofNext(f, user, steps, n.r1, n.f1, n.k1, 2);
  }

  /** Such a festival exists. */
  lemma PlaygroundExists() returns (f: Db, user: Id, n: Names)
    ensures Playground(f, user, n)
  {
    var c := Competition("open", Individual, 1, 1, None, false, true, [Wave(WAVE, "early", 0.0, 0, 100)], None);
    var a, b, d, e := Id("a"), Id("b"), Id("d"), Id("e");
    assert "a"[0] == 'a' && "b"[0] == 'b' && "d"[0] == 'd' && "e"[0] == 'e';
    user := a;
    f := Db(map[user := User("u@mail", Institution("School", "school"))], map[],
            map[a := c, b := c, d := c, e := c], map[], map[], map[], {});
    n := Names(a, b, d, e, a, b, d, e, a, b, "a", "b");
  }
}
