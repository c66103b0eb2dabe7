/** Team creation, growth and disbanding: which requests are accepted and what they do to the tables. */
module Teams {
  import opened Wrappers
  import opened Entities

  const MAX_TEAM_SIZE := 3

  predicate OnTeam(team: Team, user: Id) {
    team.leaderId == user || user in team.members
  }

  function Size(team: Team): nat {
    1 + |team.members|
  }

  // ---------- what every request keeps ----------

  ghost predicate TeamOk(users: map<Id, User>, team: Team) {
    && team.leaderId in users
    && (forall m | m in team.members :: m in users)
    && team.leaderId !in team.members
    && (forall i, j | 0 <= i < j < |team.members| :: team.members[i] != team.members[j])
    && Size(team) <= MAX_TEAM_SIZE
  }

  /** Every user is on at most one team, in one role; team names are distinct. */
  ghost predicate RosterInv(users: map<Id, User>, teams: map<Id, Team>) {
    && (forall t | t in teams :: TeamOk(users, teams[t]))
    && (forall t, t', u {:trigger OnTeam(teams[t], u), OnTeam(teams[t'], u)} |
          t in teams && t' in teams && OnTeam(teams[t], u) && OnTeam(teams[t'], u) :: t == t')
    && (forall t, t' {:trigger SameName(teams[t], teams[t'])} |
          t in teams && t' in teams && SameName(teams[t], teams[t']) :: t == t')
  }

  predicate SameName(a: Team, b: Team) {
    a.name == b.name
  }

  predicate SameEmail(a: User, b: User) {
    a.email == b.email
  }

  ghost predicate EmailsDistinct(users: map<Id, User>) {
    forall u, u' {:trigger SameEmail(users[u], users[u'])} |
      u in users && u' in users && SameEmail(users[u], users[u']) :: u == u'
  }

  // ---------- queries ----------

  ghost predicate HasTeam(teams: map<Id, Team>, user: Id) {
    exists t :: t in teams && OnTeam(teams[t], user)
  }

  /** `findByUserId`: a team the user leads or is a member of. */
  ghost function TeamOf(teams: map<Id, Team>, user: Id): (r: Option<Id>)
    ensures r.Some? <==> HasTeam(teams, user)
    ensures r.Some? ==> r.value in teams && OnTeam(teams[r.value], user)
  {
    if HasTeam(teams, user) then
      var t :| t in teams && OnTeam(teams[t], user);
      Some(t)
    else None
  }

  ghost predicate NameTaken(teams: map<Id, Team>, name: string) {
    exists t :: t in teams && teams[t].name == name
  }

  ghost predicate EmailKnown(users: map<Id, User>, email: string) {
    exists u :: u in users && users[u].email == email
  }

  ghost function UserByEmail(users: map<Id, User>, email: string): (r: Option<Id>)
    ensures r.Some? <==> EmailKnown(users, email)
    ensures r.Some? ==> r.value in users && users[r.value].email == email
  {
    if EmailKnown(users, email) then
      var u :| u in users && users[u].email == email;
      Some(u)
    else None
  }

  /** The query has one possible answer: nobody is on two teams. */
  lemma TeamOfIsUnique(users: map<Id, User>, teams: map<Id, Team>, user: Id, t: Id)
    requires RosterInv(users, teams)
    ensures TeamOf(teams, user) == Some(t) <==> t in teams && OnTeam(teams[t], user)
  {
  }

  // ---------- create ----------

  /** The column of a team is shorter than that of a user. */
  predicate FitsTeam(institution: Institution) {
    |institution.text| <= 150
  }

  ghost function CreateTeamVerdict(db: Db, leaderId: Id, name: string): Option<Error> {
    if leaderId !in db.users then Some(LeaderNotFound)
    else if db.users[leaderId].institution.text == "" then Some(ProfileIncomplete)
    else if HasTeam(db.teams, leaderId) then Some(AlreadyInTeam)
    else if NameTaken(db.teams, name) then Some(TeamNameTaken)
    else if !FitsTeam(db.users[leaderId].institution) then Some(SaveFailed)
    else None
  }

  ghost function NewTeam(db: Db, leaderId: Id, name: string): Team
    requires leaderId in db.users
  {
    Team(name, db.users[leaderId].institution, leaderId, [])
  }

  // ---------- add a member ----------

  /** Capacity first, then the newcomer's profile, then the institution. */
  function NewMemberVerdict(team: Team, newcomer: User): Option<Error> {
    if Size(team) >= MAX_TEAM_SIZE then Some(TeamFull)
    else if newcomer.institution.text == "" then Some(NewcomerProfileIncomplete)
    else if team.institution.lower != newcomer.institution.lower then Some(InstitutionMismatch)
    else None
  }

  ghost function AddMemberVerdict(db: Db, leaderId: Id, email: string): (r: Option<Error>)
    ensures r.None? ==> TeamOf(db.teams, leaderId).Some? && UserByEmail(db.users, email).Some?
  {
    var team := TeamOf(db.teams, leaderId);
    if team.None? || db.teams[team.value].leaderId != leaderId then Some(OnlyLeaderMayAdd) else
    var newcomer := UserByEmail(db.users, email);
    if newcomer.None? then Some(NewcomerNotFound)
    else if newcomer.value == leaderId then Some(AddingOneself)
    else if HasTeam(db.teams, newcomer.value) then Some(NewcomerInTeam)
    else NewMemberVerdict(db.teams[team.value], db.users[newcomer.value])
  }

  function WithMember(team: Team, user: Id): Team {
    team.(members := team.members + [user])
  }

  /** The team keeps its name, institution and leader; members stay, newcomers go to the end. */
  predicate RosterGrows(t: Team, t': Team) {
    t' == t.(members := t'.members) && t.members <= t'.members
  }

  // ---------- disband ----------

  ghost predicate IsRegistered(registrations: map<Id, Registration>, team: Id) {
    exists r :: r in registrations && registrations[r].teamId == Some(team)
  }

  ghost function DisbandVerdict(db: Db, user: Id): (r: Option<Error>)
    ensures r.None? ==> TeamOf(db.teams, user).Some?
  {
    var team := TeamOf(db.teams, user);
    if team.None? then Some(NotInTeam)
    else if db.teams[team.value].leaderId != user then Some(OnlyLeaderMayDisband)
    else if IsRegistered(db.registrations, team.value) then Some(TeamIsRegistered)
    else None
  }

  /** Deleting a team row cascades to its registrations, and from those to their submissions. */
  ghost function DeleteTeam(db: Db, team: Id): Db {
    var doomed := set r | r in db.registrations && db.registrations[r].teamId == Some(team);
    db.(teams := db.teams - {team},
        registrations := db.registrations - doomed,
        submissions := map s | s in db.submissions && db.submissions[s].registrationId !in doomed :: db.submissions[s])
  }

  // ---------- lemmas ----------

  lemma CreateKeepsRosters(db: Db, leaderId: Id, name: string, newId: Id)
    requires RosterInv(db.users, db.teams)
    requires CreateTeamVerdict(db, leaderId, name).None?
    requires newId !in db.teams
    ensures RosterInv(db.users, db.teams[newId := NewTeam(db, leaderId, name)])
  {
    var teams' := db.teams[newId := NewTeam(db, leaderId, name)];
    assert forall x | x in db.teams :: !OnTeam(db.teams[x], leaderId);
    assert OnTeam(teams'[newId], leaderId);
  }

  lemma AddKeepsRosters(db: Db, leaderId: Id, email: string)
    requires RosterInv(db.users, db.teams)
    requires AddMemberVerdict(db, leaderId, email).None?
    ensures
      var t := TeamOf(db.teams, leaderId).value;
      RosterInv(db.users, db.teams[t := WithMember(db.teams[t], UserByEmail(db.users, email).value)])
  {
    var t := TeamOf(db.teams, leaderId).value;
    var m := UserByEmail(db.users, email).value;
    var teams' := db.teams[t := WithMember(db.teams[t], m)];
    assert !OnTeam(db.teams[t], m);
    forall a, b | a in teams' && b in teams' && SameName(teams'[a], teams'[b])
      ensures a == b
    {
      assert SameName(db.teams[a], db.teams[b]);
    }
    forall a, b, u | a in teams' && b in teams' && OnTeam(teams'[a], u) && OnTeam(teams'[b], u)
      ensures a == b
    {
      if u == m {
        assert forall x | x in db.teams :: !OnTeam(db.teams[x], m);
      } else {
        assert OnTeam(db.teams[a], u) && OnTeam(db.teams[b], u);
      }
    }
  }

  /** The disband guard is exactly what keeps the cascade from touching anything: the delete leaves the
      registrations and submissions as they were if and only if the team has no registration. */
  lemma CascadeIsIdleIffUnregistered(db: Db, team: Id)
    ensures !IsRegistered(db.registrations, team) ==> DeleteTeam(db, team) == db.(teams := db.teams - {team})
    ensures IsRegistered(db.registrations, team) ==> DeleteTeam(db, team).registrations != db.registrations
  {
    var db' := DeleteTeam(db, team);
    if !IsRegistered(db.registrations, team) {
      assert db'.registrations == db.registrations;
      assert db'.submissions == db.submissions;
    } else {
      var r :| r in db.registrations && db.registrations[r].teamId == Some(team);
      assert r !in db'.registrations;
    }
  }

  /** A member is added exactly when the user leads a team with a free place and the newcomer is another
      user, on no team at all, with an institution that is the team's up to upper and lower case. */
  lemma AddAcceptedIff(db: Db, leaderId: Id, email: string)
    requires RosterInv(db.users, db.teams) && EmailsDistinct(db.users)
    ensures AddMemberVerdict(db, leaderId, email).None? <==>
      exists t, m :: MayJoin(db, leaderId, t, m) && db.users[m].email == email
  {
    if AddMemberVerdict(db, leaderId, email).None? {
      var m := UserByEmail(db.users, email).value;
      assert forall x | x in db.teams :: !OnTeam(db.teams[x], m);
      assert MayJoin(db, leaderId, TeamOf(db.teams, leaderId).value, m);
    }
    if t, m :| MayJoin(db, leaderId, t, m) && db.users[m].email == email {
      TeamOfIsUnique(db.users, db.teams, leaderId, t);
      assert SameEmail(db.users[m], db.users[UserByEmail(db.users, email).value]);
    }
  }

  ghost predicate MayJoin(db: Db, leaderId: Id, t: Id, m: Id) {
    && t in db.teams && db.teams[t].leaderId == leaderId && |db.teams[t].members| < 2
    && m in db.users && m != leaderId
    && (forall x | x in db.teams :: db.teams[x].leaderId != m && m !in db.teams[x].members)
    && db.users[m].institution.text != ""
    && db.teams[t].institution.lower == db.users[m].institution.lower
  }
}
