/** What overlapping requests can lose. A disband looks for registrations of its team and deletes the team
    later; a register request that saves in between has its row taken away by the cascade. */
module Losses {
  import opened Wrappers
  import opened Entities
  import opened Teams
  import opened Registrations
  import opened Steps
  import opened History
  import opened Interleaving

  /** No registration, older attempt or registered team of the first database is missing in the second. */
  ghost predicate Keeps(db: Db, db': Db) {
    RegistrationsGrow(db, db') && RegisteredTeamsGrow(db, db')
  }

  // ---------- one action ----------

  /** The action deletes a team that has a registration by now. */
  ghost predicate Cascades(sys: System, a: Action)
    requires Possible(sys, a)
  {
    a.FinishDisband? && IsRegistered(sys.db.registrations, sys.disbands[a.id].team)
  }

  lemma SameDbKeeps(db: Db)
    ensures Keeps(db, db)
  {
  }

  lemma OtherKeeps(db: Db, s: Step)
    requires Enabled(db, s)
    ensures Keeps(db, Next(db, s))
  {
    StepGrowsRegistrations(db, s);
    StepGrowsTeams(db, s);
  }

  lemma SaveKeeps(sys: System, id: Id, newId: Id)
    requires Possible(sys, Save(id, newId))
    ensures Keeps(sys.db, After(sys, Save(id, newId)).db)
  {
    var after := After(sys, Save(id, newId)).db;
    forall t | t in sys.db.teams && IsRegistered(sys.db.registrations, t) ensures IsRegistered(after.registrations, t) {
      StillRegistered(sys.db, after, t);
    }
  }

  lemma FinishKeepsIff(sys: System, id: Id)
    requires Possible(sys, FinishDisband(id))
    ensures Keeps(sys.db, After(sys, FinishDisband(id)).db)
       <==> !IsRegistered(sys.db.registrations, sys.disbands[id].team)
  {
    var t, after := sys.disbands[id].team, After(sys, FinishDisband(id)).db;
    CascadeIsIdleIffUnregistered(sys.db, t);
    if IsRegistered(sys.db.registrations, t) {
      var r :| r in sys.db.registrations && sys.db.registrations[r].teamId == Some(t);
      assert r !in after.registrations;
    }
  }

  /** An action loses something if and only if it deletes a team that is registered at that moment. */
  lemma {:induction false} ActionKeepsIff(sys: System, a: Action)
    requires Possible(sys, a)
    ensures Keeps(sys.db, After(sys, a).db) <==> !Cascades(sys, a)
  {
    match a
    case Other(s) => OtherKeeps(sys.db, s);
    case Save(id, newId) => SaveKeeps(sys, id, newId);
    case FinishDisband(id) => FinishKeepsIff(sys, id);
    case Begin(_, _, _, _) => SameDbKeeps(sys.db);
    case CheckLeader(_) => SameDbKeeps(sys.db);
    case LoadTeam(_) => SameDbKeeps(sys.db);
    case CheckMember(_) => SameDbKeeps(sys.db);
    case BeginDisband(_, _) => SameDbKeeps(sys.db);
  }

  // ---------- what a disband may have missed ----------

  /** The action saves a registration of the team that the disband is about to delete. */
  ghost predicate SavesFor(sys: System, a: Action, id: Id)
    requires Possible(sys, a)
  {
    && a.Save? && id in sys.disbands
    && Row(sys.requests[a.id]).teamId == Some(sys.disbands[id].team)
    && InsertAccepted(sys.db, Row(sys.requests[a.id]))
  }

  /** Since the disband looked for registrations, a register request of its team has saved one. */
  ghost predicate SavedSince(sys: System, actions: seq<Action>, id: Id)
    requires PossibleRun(sys, actions)
  {
    && actions != []
    && var before, a := actions[..|actions| - 1], actions[|actions| - 1];
       && !(a.BeginDisband? && a.id == id)
       && (SavedSince(sys, before, id) || SavesFor(RunAll(sys, before), a, id))
  }

  lemma RegisteredAfterSave(sys: System, a: Action, t: Id)
    requires Possible(sys, a) && a.Save?
    ensures
      var row := Row(sys.requests[a.id]);
      IsRegistered(After(sys, a).db.registrations, t) <==>
        IsRegistered(sys.db.registrations, t) || (row.teamId == Some(t) && InsertAccepted(sys.db, row))
  {
    var row, after := Row(sys.requests[a.id]), After(sys, a).db;
    if InsertAccepted(sys.db, row) {
      assert after.registrations[a.newId] == row;
      assert forall r | r in sys.db.registrations :: after.registrations[r] == sys.db.registrations[r];
    }
  }

  /** Other requests neither add nor remove a registration, nor the team. */
  lemma RegisteredAfterOther(sys: System, s: Step, t: Id)
    requires Possible(sys, Other(s)) && (s.CreateTeam? ==> s.newId != t)
    ensures IsRegistered(Next(sys.db, s).registrations, t) <==> IsRegistered(sys.db.registrations, t)
    ensures t in Next(sys.db, s).teams <==> t in sys.db.teams
  {
    var after := Next(sys.db, s);
    SameTeamColumn(sys.db, s);
    assert forall r | r in sys.db.registrations :: after.registrations[r].teamId == sys.db.registrations[r].teamId;
    if !s.CreateTeam? && !s.AddMember? { TeamsUntouched(sys.db, s); }
  }

  lemma SameTeamColumn(db: Db, s: Step)
    requires !s.Register? && !s.Disband?
    ensures Next(db, s).registrations.Keys == db.registrations.Keys
    ensures forall r | r in db.registrations :: Next(db, s).registrations[r].teamId == db.registrations[r].teamId
  {
    if s.UploadProof? || s.VerifyPayment? {
      PaymentRewritesRow(db, s);
    } else {
      RowsUntouched(db, s);
    }
  }

  lemma RegisteredAfterFinish(sys: System, a: Action, t: Id)
    requires RegistrationInv(sys.db) && Possible(sys, a) && a.FinishDisband?
    ensures
      var after := After(sys, a).db;
      && (t in after.teams <==> t in sys.db.teams && t != sys.disbands[a.id].team)
      && (t != sys.disbands[a.id].team ==>
            (IsRegistered(after.registrations, t) <==> IsRegistered(sys.db.registrations, t)))
      && (t == sys.disbands[a.id].team ==> !IsRegistered(after.registrations, t))
  {
    var after := After(sys, a).db;
    if r :| r in sys.db.registrations && sys.db.registrations[r].teamId == Some(t) {
      assert t != sys.disbands[a.id].team ==> after.registrations[r] == sys.db.registrations[r];
    }
  }

  lemma RegisteredTeamExists(db: Db, t: Id)
    requires RegistrationInv(db)
    ensures IsRegistered(db.registrations, t) ==> t in db.teams
  {
    if r :| r in db.registrations && db.registrations[r].teamId == Some(t) {
      assert RowOk(db, db.registrations[r]);
    }
  }

  /** The team that the disband is about to delete is the same after the action, and registered after it
      if it was before, or is by this action, unless the action deletes it. */
  ghost predicate MovesAsSaved(sys: System, a: Action, id: Id)
    requires Possible(sys, a) && id in sys.disbands
  {
    var t, after := sys.disbands[id].team, After(sys, a);
    && !(a.BeginDisband? && a.id == id)
    && (id in after.disbands ==> after.disbands[id].team == t)
    && (t in after.db.teams ==> t in sys.db.teams)
    && (IsRegistered(after.db.registrations, t) <==>
          (IsRegistered(sys.db.registrations, t) || SavesFor(sys, a, id)) && t in after.db.teams)
  }

  lemma SaveMoves(sys: System, a: Action, id: Id)
    requires RegistrationInv(sys.db) && Possible(sys, a) && a.Save? && id in sys.disbands
    ensures MovesAsSaved(sys, a, id)
  {
    RegisteredTeamExists(sys.db, sys.disbands[id].team);
    RegisteredAfterSave(sys, a, sys.disbands[id].team);
  }

  lemma OtherMoves(sys: System, a: Action, id: Id)
    requires RegistrationInv(sys.db) && Possible(sys, a) && a.Other? && id in sys.disbands
    ensures MovesAsSaved(sys, a, id)
  {
    RegisteredTeamExists(sys.db, sys.disbands[id].team);
    RegisteredAfterOther(sys, a.step, sys.disbands[id].team);
  }

  lemma FinishMoves(sys: System, a: Action, id: Id)
    requires RegistrationInv(sys.db) && Possible(sys, a) && a.FinishDisband? && id in sys.disbands
    ensures MovesAsSaved(sys, a, id)
  {
    RegisteredTeamExists(sys.db, sys.disbands[id].team);
    RegisteredAfterFinish(sys, a, sys.disbands[id].team);
  }

  /** The other actions leave the database alone. */
  lemma CheckMoves(sys: System, a: Action, id: Id)
    requires RegistrationInv(sys.db) && Possible(sys, a) && id in sys.disbands
    requires a.Begin? || a.CheckLeader? || a.LoadTeam? || a.CheckMember? || a.BeginDisband?
    ensures MovesAsSaved(sys, a, id)
  {
    RegisteredTeamExists(sys.db, sys.disbands[id].team);
  }

  lemma ActionMoves(sys: System, a: Action, id: Id)
    requires RegistrationInv(sys.db) && Possible(sys, a) && id in sys.disbands
    ensures MovesAsSaved(sys, a, id)
  {
    match a
    case Save(_, _) => SaveMoves(sys, a, id);
    case Other(_) => OtherMoves(sys, a, id);
    case FinishDisband(_) => FinishMoves(sys, a, id);
    case Begin(_, _, _, _) => CheckMoves(sys, a, id);
    case CheckLeader(_) => CheckMoves(sys, a, id);
    case LoadTeam(_) => CheckMoves(sys, a, id);
    case CheckMember(_) => CheckMoves(sys, a, id);
    case BeginDisband(_, _) => CheckMoves(sys, a, id);
  }

  /** A disband that begins has just found its team unregistered. */
  lemma BegunIsUnregistered(sys: System, a: Action, id: Id)
    requires Possible(sys, a) && id !in sys.disbands && id in After(sys, a).disbands
    ensures a.BeginDisband? && a.id == id
    ensures !IsRegistered(After(sys, a).db.registrations, After(sys, a).disbands[id].team)
  {
  }

  /** At every point of a run, a team that some disband is about to delete is registered if and only if a
      register request has saved since the disband looked and the team is still there. */
  lemma {:induction false} MissedIffSavedSince(db: Db, actions: seq<Action>, id: Id)
    requires Init(db) && PossibleRun(Idle(db), actions) && id in RunAll(Idle(db), actions).disbands
    ensures
      var sys := RunAll(Idle(db), actions);
      IsRegistered(sys.db.registrations, sys.disbands[id].team) <==>
        SavedSince(Idle(db), actions, id) && sys.disbands[id].team in sys.db.teams
  {
    if actions != [] {
      var before, a := actions[..|actions| - 1], actions[|actions| - 1];
      InitHolds(db);
      RunAllKeepsInv(Idle(db), before);
      if id in RunAll(Idle(db), before).disbands {
        MissedIffSavedSince(db, before, id);
        ActionMoves(RunAll(Idle(db), before), a, id);
      } else {
        BegunIsUnregistered(RunAll(Idle(db), before), a, id);
      }
    }
  }

  // ---------- whole interleaved runs ----------

  /** Some disband deletes its team after a register request of the team has saved behind its back. */
  ghost predicate SomeDisbandComesLate(sys: System, actions: seq<Action>)
    requires PossibleRun(sys, actions)
  {
    && actions != []
    && var before, a := actions[..|actions| - 1], actions[|actions| - 1];
       || SomeDisbandComesLate(sys, before)
       || (a.FinishDisband? && SavedSince(sys, before, a.id)
           && RunAll(sys, before).disbands[a.id].team in RunAll(sys, before).db.teams)
  }

  /** The database after the first `n` actions. */
  ghost function StateAt(sys: System, actions: seq<Action>, n: nat): Db
    requires n <= |actions|
  {
    RunAll(sys, actions[..n]).db
  }

  ghost predicate KeepsAlong(sys: System, actions: seq<Action>) {
    actions != [] ==>
      && KeepsAlong(sys, actions[..|actions| - 1])
      && Keeps(RunAll(sys, actions[..|actions| - 1]).db, RunAll(sys, actions).db)
  }

  lemma {:induction false} KeepsAlongIff(db: Db, actions: seq<Action>)
    requires Init(db) && PossibleRun(Idle(db), actions)
    ensures KeepsAlong(Idle(db), actions) <==> !SomeDisbandComesLate(Idle(db), actions)
  {
    if actions != [] {
      var before, a := actions[..|actions| - 1], actions[|actions| - 1];
      KeepsAlongIff(db, before);
      ActionKeepsIff(RunAll(Idle(db), before), a);
      if a.FinishDisband? { MissedIffSavedSince(db, before, a.id); }
    }
  }

  lemma {:induction false} KeptFromAnyPoint(sys: System, actions: seq<Action>, n: nat)
    requires KeepsAlong(sys, actions) && n <= |actions|
    ensures Keeps(StateAt(sys, actions, n), RunAll(sys, actions).db)
    decreases |actions|
  {
    if n == |actions| {
      assert actions[..n] == actions;
      SameDbKeeps(RunAll(sys, actions).db);
    } else {
      var before := actions[..|actions| - 1];
      assert before[..n] == actions[..n];
      KeptFromAnyPoint(sys, before, n);
      GrowthIsTransitive(StateAt(sys, actions, n), RunAll(sys, before).db, RunAll(sys, actions).db);
    }
  }

  lemma {:induction false} KeepsAlongPrefix(sys: System, actions: seq<Action>, m: nat)
    requires KeepsAlong(sys, actions) && m <= |actions|
    ensures KeepsAlong(sys, actions[..m])
    decreases |actions|
  {
    if m == |actions| {
      assert actions[..m] == actions;
    } else {
      var before := actions[..|actions| - 1];
      assert before[..m] == actions[..m];
      KeepsAlongPrefix(sys, before, m);
    }
  }

  lemma KeptBetween(sys: System, actions: seq<Action>, n: nat, m: nat)
    requires KeepsAlong(sys, actions) && n <= m <= |actions|
    ensures Keeps(StateAt(sys, actions, n), StateAt(sys, actions, m))
  {
    KeepsAlongPrefix(sys, actions, m);
    assert actions[..m][..n] == actions[..n];
    KeptFromAnyPoint(sys, actions[..m], n);
  }

  /** Where something is lost first. */
  lemma {:induction false} LossHasAPlace(sys: System, actions: seq<Action>) returns (n: nat)
    requires !KeepsAlong(sys, actions)
    ensures n + 1 <= |actions| && !Keeps(StateAt(sys, actions, n), StateAt(sys, actions, n + 1))
    decreases |actions|
  {
    var before := actions[..|actions| - 1];
    if KeepsAlong(sys, before) {
      n := |actions| - 1;
      assert actions[..n + 1] == actions;
    } else {
      n := LossHasAPlace(sys, before);
      assert before[..n] == actions[..n] && before[..n + 1] == actions[..n + 1];
    }
  }

  /** Overlapping register and disband requests, with any other requests in between, lose nothing between
      any two points of the run if and only if no disband deletes a team that a register request has
      registered since the disband looked. */
  lemma {:induction false} OverlapLosesNothingIff(db: Db, actions: seq<Action>)
    requires Init(db) && PossibleRun(Idle(db), actions)
    ensures
      (forall n: nat, m: nat | n <= m <= |actions| ::
         Keeps(StateAt(Idle(db), actions, n), StateAt(Idle(db), actions, m)))
      <==> !SomeDisbandComesLate(Idle(db), actions)
  {
    KeepsAlongIff(db, actions);
    if KeepsAlong(Idle(db), actions) {
      forall n: nat, m: nat | n <= m <= |actions|
        ensures Keeps(StateAt(Idle(db), actions, n), StateAt(Idle(db), actions, m))
      {
        KeptBetween(Idle(db), actions, n, m);
      }
    } else {
      var n := LossHasAPlace(Idle(db), actions);
    }
  }

  // ---------- the minimum size of a registered team ----------

  lemma {:induction false} PossiblePrefix(sys: System, actions: seq<Action>, n: nat)
    requires PossibleRun(sys, actions) && n <= |actions|
    ensures PossibleRun(sys, actions[..n])
    ensures n < |actions| ==> Possible(RunAll(sys, actions[..n]), actions[n])
    decreases |actions|
  {
    if n < |actions| {
      var before := actions[..|actions| - 1];
      assert before[..n] == actions[..n];
      PossiblePrefix(sys, before, n);
    } else {
      assert actions[..n] == actions;
    }
  }

  /** The request saves a registration of the team at this point. */
  ghost predicate SavesTeam(sys: System, a: Action, t: Id)
    requires Possible(sys, a)
  {
    a.Save? && Row(sys.requests[a.id]).teamId == Some(t) && InsertAccepted(sys.db, Row(sys.requests[a.id]))
  }

  /** Whatever happens between the roster read and the save, the team that is registered has the minimum of
      the competition as the request read it, is led by the user, and has at most three people. */
  lemma SavedTeamHasMinimum(sys: System, a: Action, t: Id)
    requires SystemInv(sys) && Possible(sys, a) && SavesTeam(sys, a, t)
    ensures
      var p := sys.requests[a.id];
      && t in sys.db.teams && sys.db.teams[t].leaderId == p.user
      && (var minimum := p.competition.minTeamMembers;
          (if minimum == 0 then 1 else minimum) <= 1 + |sys.db.teams[t].members|)
      && 1 + |sys.db.teams[t].members| <= 3
      && t in After(sys, a).db.teams && After(sys, a).db.teams[t] == sys.db.teams[t]
      && IsRegistered(After(sys, a).db.registrations, t)
  {
    assert RequestOk(sys.db, sys.requests[a.id]);
    RegisteredAfterSave(sys, a, t);
  }

  lemma SystemInvAt(db: Db, actions: seq<Action>, n: nat)
    requires Init(db) && PossibleRun(Idle(db), actions) && n <= |actions|
    ensures SystemInv(RunAll(Idle(db), actions[..n]))
  {
    InitHolds(db);
    PossiblePrefix(Idle(db), actions, n);
    RunAllKeepsInv(Idle(db), actions[..n]);
  }

  lemma NextState(sys: System, actions: seq<Action>, n: nat)
    requires n < |actions|
    ensures StateAt(sys, actions, n + 1) == After(RunAll(sys, actions[..n]), actions[n]).db
  {
    assert actions[..n + 1][..n] == actions[..n];
  }

  lemma KeptWithoutLateDisband(db: Db, actions: seq<Action>, n: nat, m: nat)
    requires Init(db) && PossibleRun(Idle(db), actions) && n <= m <= |actions|
    requires !SomeDisbandComesLate(Idle(db), actions)
    ensures Keeps(StateAt(Idle(db), actions, n), StateAt(Idle(db), actions, m))
  {
    OverlapLosesNothingIff(db, actions);
  }

  lemma KeptTeamGrows(db: Db, db': Db, t: Id)
    requires Keeps(db, db') && RosterInv(db'.users, db'.teams)
    requires t in db.teams && IsRegistered(db.registrations, t)
    ensures t in db'.teams && db'.teams[t].leaderId == db.teams[t].leaderId
    ensures Size(db.teams[t]) <= Size(db'.teams[t]) <= MAX_TEAM_SIZE
  {
    assert TeamOk(db'.users, db'.teams[t]);
  }

  /** Over any interleaving in which no disband comes too late, a team that registers keeps the minimum it
      was checked against and its leader from then on. */
  lemma {:induction false} RegisteredTeamKeepsMinimum(db: Db, actions: seq<Action>, n: nat, m: nat, t: Id)
    requires Init(db) && PossibleRun(Idle(db), actions) && n < m <= |actions|
    requires Possible(RunAll(Idle(db), actions[..n]), actions[n])
    requires SavesTeam(RunAll(Idle(db), actions[..n]), actions[n], t)
    requires !SomeDisbandComesLate(Idle(db), actions)
    ensures
      var p := RunAll(Idle(db), actions[..n]).requests[actions[n].id];
      var teams := StateAt(Idle(db), actions, m).teams;
      && t in teams && teams[t].leaderId == p.user
      && (if p.competition.minTeamMembers == 0 then 1 else p.competition.minTeamMembers) <= 1 + |teams[t].members|
      && 1 + |teams[t].members| <= 3
  {
    SystemInvAt(db, actions, n);
    SystemInvAt(db, actions, m);
    SavedTeamHasMinimum(RunAll(Idle(db), actions[..n]), actions[n], t);
    NextState(Idle(db), actions, n);
    KeptWithoutLateDisband(db, actions, n + 1, m);
    KeptTeamGrows(StateAt(Idle(db), actions, n + 1), StateAt(Idle(db), actions, m), t);
  }

  // ---------- who disbands a team ----------

  /** The user has sent the disband request. */
  ghost predicate Sent(actions: seq<Action>, id: Id, user: Id) {
    exists k :: 0 <= k < |actions| && actions[k] == BeginDisband(id, user)
  }

  lemma DisbandsMove(sys: System, a: Action, id: Id)
    requires Possible(sys, a) && id in After(sys, a).disbands
    ensures
      || (id in sys.disbands && After(sys, a).disbands[id] == sys.disbands[id])
      || a == BeginDisband(id, After(sys, a).disbands[id].user)
  {
  }

  lemma SentStays(actions: seq<Action>, id: Id, user: Id)
    requires actions != []
    requires Sent(actions[..|actions| - 1], id, user) || actions[|actions| - 1] == BeginDisband(id, user)
    ensures Sent(actions, id, user)
  {
    var before := actions[..|actions| - 1];
    if k :| 0 <= k < |before| && before[k] == BeginDisband(id, user) {
      assert actions[k] == BeginDisband(id, user);
    }
  }

  lemma {:induction false} SenderHasSent(sys: System, actions: seq<Action>, id: Id)
    requires sys.disbands == map[] && PossibleRun(sys, actions) && id in RunAll(sys, actions).disbands
    ensures Sent(actions, id, RunAll(sys, actions).disbands[id].user)
  {
    var before, a := actions[..|actions| - 1], actions[|actions| - 1];
    DisbandsMove(RunAll(sys, before), a, id);
    if a != BeginDisband(id, RunAll(sys, actions).disbands[id].user) { SenderHasSent(sys, before, id); }
    SentStays(actions, id, RunAll(sys, actions).disbands[id].user);
  }

  lemma VanishingIsDisbanding(sys: System, a: Action, t: Id)
    requires SystemInv(sys) && Possible(sys, a) && t in sys.db.teams && t !in After(sys, a).db.teams
    ensures a.FinishDisband? && sys.disbands[a.id] == Disbanding(sys.db.teams[t].leaderId, t)
  {
    if a.Other? {
      TeamStepStaysOrDisbands(sys.db, a.step, t);
    } else if a.FinishDisband? {
      FinishTakesOwn(sys, a, t);
    } else {
      TeamsStay(sys, a);
    }
  }

  lemma FinishTakesOwn(sys: System, a: Action, t: Id)
    requires SystemInv(sys) && Possible(sys, a) && a.FinishDisband?
    requires t in sys.db.teams && t !in After(sys, a).db.teams
    ensures sys.disbands[a.id] == Disbanding(sys.db.teams[t].leaderId, t)
  {
    assert LedBySender(sys.db.teams, sys.disbands[a.id]);
  }

  lemma TeamsStay(sys: System, a: Action)
    requires Possible(sys, a) && !a.Other? && !a.FinishDisband?
    ensures After(sys, a).db.teams == sys.db.teams
  {
  }

  /** Over any interleaving a team disappears only when a disband request finishes that its own leader sent. */
  lemma {:induction false} OnlyTheLeaderDisbands(db: Db, actions: seq<Action>, n: nat, t: Id)
    requires Init(db) && PossibleRun(Idle(db), actions) && n < |actions|
    requires t in StateAt(Idle(db), actions, n).teams && t !in StateAt(Idle(db), actions, n + 1).teams
    ensures exists id ::
      Sent(actions[..n], id, StateAt(Idle(db), actions, n).teams[t].leaderId) && actions[n] == FinishDisband(id)
  {
    SystemInvAt(db, actions, n);
    PossiblePrefix(Idle(db), actions, n);
    NextState(Idle(db), actions, n);
    var id := FinishedBy(RunAll(Idle(db), actions[..n]), actions[n], t);
    SenderHasSent(Idle(db), actions[..n], id);
  }

  lemma FinishedBy(sys: System, a: Action, t: Id) returns (id: Id)
    requires SystemInv(sys) && Possible(sys, a) && t in sys.db.teams && t !in After(sys, a).db.teams
    ensures a == FinishDisband(id) && id in sys.disbands && sys.disbands[id] == Disbanding(sys.db.teams[t].leaderId, t)
  {
    VanishingIsDisbanding(sys, a, t);
    id := a.id;
  }
}
