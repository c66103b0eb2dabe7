/** The tables the use cases share, and the repository queries over them. */
module Database {
  import opened Wrappers
  import opened Entities
  import opened Teams
  import opened Storage
  import opened Registrations
  import opened Submissions
  import opened Steps

  /** The row is of this competition and of this team, or of this user. */
  predicate Matches(r: Registration, competitionId: Id, participantId: Id, isTeam: bool) {
    && r.competitionId == competitionId
    && (if isTeam then r.teamId else r.userId) == Some(participantId)
  }

  class Database {
    var users: map<Id, User>
    var teams: map<Id, Team>
    var competitions: map<Id, Competition>
    var registrations: map<Id, Registration>
    var submissions: map<Id, Submission>
    var files: map<Id, StoredFile>
    var blobs: set<string>

    /** All tables as one value. */
    function View(): Db
      reads this
    {
      Db(users, teams, competitions, registrations, submissions, files, blobs)
    }

    ghost predicate Valid()
      reads this
    {
      Inv(View())
    }

    constructor (users: map<Id, User>, competitions: map<Id, Competition>)
      requires EmailsDistinct(users)
      ensures Init(View()) && Valid()
      ensures this.users == users && this.competitions == competitions
    {
      this.users, this.competitions := users, competitions;
      teams, registrations, submissions, files, blobs := map[], map[], map[], map[], {};
      new;
      InitHolds(View());
    }

    // ---------- team and user queries ----------

    /** The unique team of a user. */
    method FindTeamByUserId(user: Id) returns (r: Option<Id>)
      requires RosterInv(users, teams)
      ensures r == TeamOf(teams, user)
    {
      var todo := teams.Keys;
      while todo != {}
        invariant todo <= teams.Keys
        invariant forall t | t in teams && t !in todo :: !OnTeam(teams[t], user)
        decreases todo
      {
        var t :| t in todo;
        if OnTeam(teams[t], user) {
          TeamOfIsUnique(users, teams, user, t);
          return Some(t);
        }
        todo := todo - {t};
      }
      r := None;
    }

    method FindTeamByName(name: string) returns (taken: bool)
      ensures taken <==> NameTaken(teams, name)
    {
      var todo := teams.Keys;
      while todo != {}
        invariant todo <= teams.Keys
        invariant forall t | t in teams && t !in todo :: teams[t].name != name
        decreases todo
      {
        var t :| t in todo;
        if teams[t].name == name {
          return true;
        }
        todo := todo - {t};
      }
      taken := false;
    }

    method FindUserByEmail(email: string) returns (r: Option<Id>)
      requires EmailsDistinct(users)
      ensures r == UserByEmail(users, email)
    {
      var todo := users.Keys;
      while todo != {}
        invariant todo <= users.Keys
        invariant forall u | u in users && u !in todo :: users[u].email != email
        decreases todo
      {
        var u :| u in todo;
        if users[u].email == email {
          var found := UserByEmail(users, email);
          assert SameEmail(users[u], users[found.value]);
          return Some(u);
        }
        todo := todo - {u};
      }
      r := None;
    }

    // ---------- registration queries ----------

    /** The join of `findMyRegistrations`: each registration the user takes part in, once. */
    method FindMyRegistrations(user: Id) returns (found: seq<Id>)
      ensures forall i, j | 0 <= i < j < |found| :: found[i] != found[j]
      ensures forall r :: r in found <==> r in registrations && Participates(teams, registrations[r], user)
    {
      found := [];
      var todo := registrations.Keys;
      while todo != {}
        invariant todo <= registrations.Keys
        invariant forall r | r in found :: r in registrations && r !in todo
        invariant forall r | r in registrations && r !in todo ::
                    r in found <==> Participates(teams, registrations[r], user)
        invariant forall i, j | 0 <= i < j < |found| :: found[i] != found[j]
        decreases todo
      {
        var r :| r in todo;
        var row := registrations[r];
        var own := row.userId == Some(user);
        var viaTeam := false;
        if row.teamId.Some? && row.teamId.value in teams {
          var team := teams[row.teamId.value];
          viaTeam := team.leaderId == user || user in team.members;
        }
        if own || viaTeam {
          found := found + [r];
        }
        todo := todo - {r};
      }
    }

    /** A row of the competition with the same team, or with the same user. */
    method CheckDuplicate(competitionId: Id, participantId: Id, isTeam: bool) returns (found: bool)
      ensures found <==>
        exists r :: r in registrations && Matches(registrations[r], competitionId, participantId, isTeam)
    {
      var todo := registrations.Keys;
      while todo != {}
        invariant todo <= registrations.Keys
        invariant forall r | r in registrations && r !in todo ::
                    !Matches(registrations[r], competitionId, participantId, isTeam)
        decreases todo
      {
        var r :| r in todo;
        if Matches(registrations[r], competitionId, participantId, isTeam) {
          return true;
        }
        todo := todo - {r};
      }
      found := false;
    }

    method FindByTeamId(team: Id) returns (found: seq<Id>)
      ensures forall r :: r in found <==> r in registrations && registrations[r].teamId == Some(team)
    {
      found := [];
      var todo := registrations.Keys;
      while todo != {}
        invariant todo <= registrations.Keys
        invariant forall r | r in found :: r in registrations && r !in todo
        invariant forall r | r in registrations && r !in todo :: r in found <==> registrations[r].teamId == Some(team)
        decreases todo
      {
        var r :| r in todo;
        if registrations[r].teamId == Some(team) {
          found := found + [r];
        }
        todo := todo - {r};
      }
    }

    /** Inserts a registration unless a foreign key or a unique index refuses it. */
    method InsertRegistration(id: Id, row: Registration) returns (saved: bool)
      requires id !in registrations
      modifies this`registrations
      ensures saved <==> InsertAccepted(old(View()), row)
      ensures View() == if saved then Insert(old(View()), id, row) else old(View())
    {
      saved := (row.userId.Some? ==> row.userId.value in users) && (row.teamId.Some? ==> row.teamId.value in teams);
      if saved && row.userId.Some? {
        var clash := CheckDuplicate(row.competitionId, row.userId.value, false);
        saved := !clash;
      }
      if saved && row.teamId.Some? {
        var clash := CheckDuplicate(row.competitionId, row.teamId.value, true);
        saved := !clash;
      }
      if saved {
        registrations := registrations[id := row];
      }
    }

    // ---------- deletes ----------

    /** Deletes a team row; the foreign keys cascade to its registrations and their submissions. */
    method DeleteTeamRow(team: Id)
      modifies this`teams, this`registrations, this`submissions
      ensures View() == DeleteTeam(old(View()), team)
    {
      var found := FindByTeamId(team);
      var doomed := set r | r in found;
      assert doomed == set r | r in registrations && registrations[r].teamId == Some(team);
      teams := teams - {team};
      registrations := registrations - doomed;
      submissions := map s | s in submissions && submissions[s].registrationId !in doomed :: submissions[s];
    }

    /** Deletes a file row; the foreign key of the payment attempts sets their references to NULL. */
    method DeleteFileRow(file: Id)
      modifies this`files, this`registrations
      ensures files == old(files) - {file}
      ensures registrations == map r | r in old(registrations) :: WithoutFile(old(registrations)[r], file)
    {
      files := files - {file};
      registrations := map r | r in registrations :: WithoutFile(registrations[r], file);
    }

    method FindSubmission(registration: Id) returns (found: bool)
      ensures found <==> HasSubmission(View(), registration)
    {
      var todo := submissions.Keys;
      while todo != {}
        invariant todo <= submissions.Keys
        invariant forall s | s in submissions && s !in todo :: submissions[s].registrationId != registration
        decreases todo
      {
        var s :| s in todo;
        if submissions[s].registrationId == registration {
          return true;
        }
        todo := todo - {s};
      }
      found := false;
    }
  }
}
