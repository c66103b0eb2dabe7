/** Register requests that race for the unique indexes. The duplicate check of one is out of date by the time
    it saves if another request has saved in between; the index then refuses the row. */
module Races {
  import opened Wrappers
  import opened Entities
  import opened Teams
  import opened Registrations
  import opened Steps
  import opened Interleaving

  // ---------- one action ----------

  /** The action saves a row that clashes with the row of the request. */
  ghost predicate SavesClash(sys: System, a: Action, id: Id)
    requires Possible(sys, a) && id in sys.requests
  {
    && a.Save? && InsertAccepted(sys.db, Row(sys.requests[a.id]))
    && Clash(Row(sys.requests[a.id]), Row(sys.requests[id]))
  }

  /** The team of the row, if it has one, exists. */
  predicate TeamExists(db: Db, row: Registration) {
    row.teamId.Some? ==> row.teamId.value in db.teams
  }

  ghost predicate Clashes(db: Db, row: Registration) {
    ClashesWithTable(db.registrations, row)
  }

  /** Competition, user and team of every row are as they were. */
  ghost predicate SameOwners(db: Db, db': Db) {
    && db'.registrations.Keys == db.registrations.Keys
    && forall r | r in db.registrations ::
         && db'.registrations[r].competitionId == db.registrations[r].competitionId
         && db'.registrations[r].userId == db.registrations[r].userId
         && db'.registrations[r].teamId == db.registrations[r].teamId
  }

  lemma OwnersStay(db: Db, s: Step)
    requires !s.Register? && !s.Disband?
    ensures SameOwners(db, Next(db, s))
  {
    if s.UploadProof? || s.VerifyPayment? {
      PaymentRewritesRow(db, s);
    } else {
      RowsUntouched(db, s);
    }
  }

  lemma SameOwnersSameClashes(db: Db, db': Db, row: Registration)
    requires SameOwners(db, db')
    ensures Clashes(db', row) <==> Clashes(db, row)
  {
    if r :| r in db.registrations && Clash(db.registrations[r], row) {
      assert Clash(db'.registrations[r], row);
    }
    if r :| r in db'.registrations && Clash(db'.registrations[r], row) {
      assert Clash(db.registrations[r], row);
    }
  }

  lemma InsertClashes(db: Db, id: Id, added: Registration, row: Registration)
    requires id !in db.registrations
    ensures Clashes(Insert(db, id, added), row) <==> Clashes(db, row) || Clash(added, row)
  {
    var after := Insert(db, id, added);
    assert after.registrations[id] == added;
    assert forall r | r in db.registrations :: after.registrations[r] == db.registrations[r];
  }

  /** The cascade of a team takes no row that clashes with the row of an individual or of another team. */
  lemma CascadeClashes(db: Db, t: Id, row: Registration)
    requires RegistrationInv(db) && row.teamId != Some(t) && (row.userId.Some? ==> row.teamId.None?)
    ensures Clashes(DeleteTeam(db, t), row) <==> Clashes(db, row)
  {
    var after := DeleteTeam(db, t);
    if r :| r in db.registrations && Clash(db.registrations[r], row) {
      assert RowOk(db, db.registrations[r]);
      assert Clash(after.registrations[r], row);
    }
  }

  /** What an action does to the clashes of a request that stays in flight. */
  ghost predicate MovesAsRaced(sys: System, a: Action, id: Id)
    requires Possible(sys, a) && id in sys.requests
  {
    id in After(sys, a).requests ==>
      var row, after := Row(sys.requests[id]), After(sys, a);
      && !(a.Begin? && a.id == id)
      && Row(after.requests[id]) == row
      && (TeamExists(after.db, row) ==> TeamExists(sys.db, row))
      && (TeamExists(after.db, row) ==> (Clashes(after.db, row) <==> Clashes(sys.db, row) || SavesClash(sys, a, id)))
  }

  lemma SaveRaces(sys: System, a: Action, id: Id)
    requires Possible(sys, a) && a.Save? && id in sys.requests
    ensures MovesAsRaced(sys, a, id)
  {
    var added := Row(sys.requests[a.id]);
    if InsertAccepted(sys.db, added) { InsertClashes(sys.db, a.newId, added, Row(sys.requests[id])); }
  }

  lemma OtherRaces(sys: System, a: Action, id: Id)
    requires Possible(sys, a) && a.Other? && id in sys.requests
    ensures MovesAsRaced(sys, a, id)
  {
    var row := Row(sys.requests[id]);
    OwnersStay(sys.db, a.step);
    SameOwnersSameClashes(sys.db, Next(sys.db, a.step), row);
    TeamsOnlyGrow(sys.db, a.step);
  }

  lemma FinishRaces(sys: System, a: Action, id: Id)
    requires RegistrationInv(sys.db) && Possible(sys, a) && a.FinishDisband? && id in sys.requests
    ensures MovesAsRaced(sys, a, id)
  {
    var row, t := Row(sys.requests[id]), sys.disbands[a.id].team;
    if row.teamId != Some(t) { CascadeClashes(sys.db, t, row); }
  }

  lemma ActionRaces(sys: System, a: Action, id: Id)
    requires RegistrationInv(sys.db) && Possible(sys, a) && id in sys.requests
    ensures MovesAsRaced(sys, a, id)
  {
    match a
    case Save(_, _) => SaveRaces(sys, a, id);
    case Other(_) => OtherRaces(sys, a, id);
    case FinishDisband(_) => FinishRaces(sys, a, id);
    case Begin(_, _, _, _) =>
    case CheckLeader(_) =>
    case LoadTeam(_) =>
    case CheckMember(_) =>
    case BeginDisband(_, _) =>
  }

  /** A request that begins has just passed the duplicate check. */
  lemma BegunIsNoDuplicate(sys: System, a: Action, id: Id)
    requires Possible(sys, a) && id !in sys.requests && id in After(sys, a).requests
    ensures a.Begin? && a.id == id
    ensures !Clashes(After(sys, a).db, Row(After(sys, a).requests[id]))
  {
  }

  // ---------- whole interleaved runs ----------

  /** Since the request passed its duplicate check, another one has saved a row that clashes with its own. */
  ghost predicate ClashSavedSince(sys: System, actions: seq<Action>, id: Id)
    requires PossibleRun(sys, actions)
  {
    && actions != []
    && var before, a := actions[..|actions| - 1], actions[|actions| - 1];
       && id in RunAll(sys, before).requests
       && (ClashSavedSince(sys, before, id) || SavesClash(RunAll(sys, before), a, id))
  }

  /** At every point of a run, the row of a request in flight, whose team exists if it has one, clashes with
      the table if and only if another request has saved a clashing row since its duplicate check. */
  lemma {:induction false} ClashesIffSavedSince(db: Db, actions: seq<Action>, id: Id)
    requires Init(db) && PossibleRun(Idle(db), actions) && id in RunAll(Idle(db), actions).requests
    requires TeamExists(RunAll(Idle(db), actions).db, Row(RunAll(Idle(db), actions).requests[id]))
    ensures
      var sys := RunAll(Idle(db), actions);
      Clashes(sys.db, Row(sys.requests[id])) <==> ClashSavedSince(Idle(db), actions, id)
  {
    if actions != [] {
      var before, a := actions[..|actions| - 1], actions[|actions| - 1];
      InitHolds(db);
      RunAllKeepsInv(Idle(db), before);
      if id in RunAll(Idle(db), before).requests {
        ActionRaces(RunAll(Idle(db), before), a, id);
        ClashesIffSavedSince(db, before, id);
      } else {
        BegunIsNoDuplicate(RunAll(Idle(db), before), a, id);
      }
    }
  }

  /** In every interleaved run, a request that has passed all checks is refused by the database if and only
      if another one has saved a clashing row since its duplicate check, or its team is gone, or the
      individual has no account; and every such refusal is answered as an internal error. */
  lemma {:induction false} SaveRefusedIff(db: Db, actions: seq<Action>, id: Id, newId: Id)
    requires Init(db) && PossibleRun(Idle(db), actions) && Possible(RunAll(Idle(db), actions), Save(id, newId))
    ensures
      var sys := RunAll(Idle(db), actions);
      var row, answer := Row(sys.requests[id]), After(sys, Save(id, newId)).answers[id];
      var refused :=
        || ClashSavedSince(Idle(db), actions, id)
        || (row.teamId.Some? && row.teamId.value !in sys.db.teams)
        || (row.userId.Some? && row.userId.value !in sys.db.users);
      && answer == (if refused then Some(SaveFailed) else None)
      && After(sys, Save(id, newId)).db == (if refused then sys.db else Insert(sys.db, newId, row))
  {
    var sys := RunAll(Idle(db), actions);
    if TeamExists(sys.db, Row(sys.requests[id])) { ClashesIffSavedSince(db, actions, id); }
  }
}
