/**
 * The shapes of the persistent entities and of the projected row.
 * `Member` and `Team` are owned by the persistence layer; the search only
 * reads them. `MemberTeamDto` is the flat row the search projects to.
 */
module Entities {
  import opened Nullable

  /** Java `int` and `long`; the core only compares them, it never computes with them. */
  type Int32 = x: int | -0x8000_0000 <= x < 0x8000_0000
  type Int64 = x: int | -0x8000_0000_0000_0000 <= x < 0x8000_0000_0000_0000

  datatype Team = Team(id: Int64, name: Option<string>)

  /** A member belongs to at most one team (a nullable association). */
  datatype Member = Member(id: Int64, username: Option<string>, age: Int32, team: Option<Team>)

  datatype MemberTeamDto = MemberTeamDto(
    memberId: Int64,
    username: Option<string>,
    age: Int32,
    teamId: Option<Int64>,
    teamName: Option<string>)

  /** The team columns of a member left-joined to its team: null when there is no team. */
  function JoinedTeamId(team: Option<Team>): Option<Int64>
  {
    if team.Some? then Some(team.value.id) else None
  }

  function JoinedTeamName(team: Option<Team>): Option<string>
  {
    if team.Some? then team.value.name else None
  }

  /** The projection `new QMemberTeamDto(member.id, member.username, member.age, team.id, team.name)`. */
  function Project(m: Member): MemberTeamDto
  {
    MemberTeamDto(m.id, m.username, m.age, JoinedTeamId(m.team), JoinedTeamName(m.team))
  }

  /** Every member of the store, each joined to its team if it has one, in store order. */
  function JoinAll(store: seq<Member>): (rows: seq<MemberTeamDto>)
  {
    seq(|store|, i requires 0 <= i < |store| => Project(store[i]))
  }
}
