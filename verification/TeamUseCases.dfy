/** Creating, extending and disbanding a team, as the use cases do it: query, guard, write. */
module TeamUseCases {
  import opened Wrappers
  import opened Entities
  import opened Teams
  import D = Database

  method CreateTeam(db: D.Database, leaderId: Id, name: string, newId: Id) returns (refused: Option<Error>)
    requires RosterInv(db.users, db.teams)
    modifies db`teams
    ensures refused == CreateTeamVerdict(old(db.View()), leaderId, name)
    ensures db.teams == if refused.Some? then old(db.teams) else
      old(db.teams)[newId := NewTeam(old(db.View()), leaderId, name)]
  {
    if leaderId !in db.users {
      return Some(LeaderNotFound);
    }
    var institution := db.users[leaderId].institution;
    if institution.text == "" {
      return Some(ProfileIncomplete);
    }
    var existing := db.FindTeamByUserId(leaderId);
    if existing.Some? {
      return Some(AlreadyInTeam);
    }
    var taken := db.FindTeamByName(name);
    if taken {
      return Some(TeamNameTaken);
    }
    if !FitsTeam(institution) {
      return Some(SaveFailed);
    }
    db.teams := db.teams[newId := Team(name, institution, leaderId, [])];
    refused := None;
  }

  method AddMember(db: D.Database, leaderId: Id, email: string) returns (refused: Option<Error>)
    requires RosterInv(db.users, db.teams) && EmailsDistinct(db.users)
    modifies db`teams
    ensures refused == AddMemberVerdict(old(db.View()), leaderId, email)
    ensures db.teams == if refused.Some? then old(db.teams) else
      var t := TeamOf(old(db.teams), leaderId).value;
      old(db.teams)[t := WithMember(old(db.teams)[t], UserByEmail(db.users, email).value)]
  {
    var teamId := db.FindTeamByUserId(leaderId);
    if teamId.None? || db.teams[teamId.value].leaderId != leaderId {
      return Some(OnlyLeaderMayAdd);
    }
    var newcomer := db.FindUserByEmail(email);
    if newcomer.None? {
      return Some(NewcomerNotFound);
    }
    if newcomer.value == leaderId {
      return Some(AddingOneself);
    }
    var existing := db.FindTeamByUserId(newcomer.value);
    if existing.Some? {
      return Some(NewcomerInTeam);
    }
    var team := db.teams[teamId.value];
    refused := NewMemberVerdict(team, db.users[newcomer.value]);
    if refused.None? {
      team := team.(members := team.members + [newcomer.value]);
      db.teams := db.teams[teamId.value := team];
    }
  }

  method LeaveTeam(db: D.Database, user: Id) returns (refused: Option<Error>)
    requires RosterInv(db.users, db.teams)
    modifies db`teams, db`registrations, db`submissions
    ensures refused == DisbandVerdict(old(db.View()), user)
    ensures db.View() == if refused.Some? then old(db.View())
                         else DeleteTeam(old(db.View()), TeamOf(old(db.teams), user).value)
    ensures db.registrations == old(db.registrations) && db.submissions == old(db.submissions)
  {
    var teamId := db.FindTeamByUserId(user);
    if teamId.None? {
      return Some(NotInTeam);
    }
    if db.teams[teamId.value].leaderId != user {
      return Some(OnlyLeaderMayDisband);
    }
    var found := db.FindByTeamId(teamId.value);
    if |found| > 0 {
      assert found[0] in found;
      return Some(TeamIsRegistered);
    }
    CascadeIsIdleIffUnregistered(db.View(), teamId.value);
    db.DeleteTeamRow(teamId.value);
    refused := None;
  }
}
