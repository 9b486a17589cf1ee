/** The repository test's data: five members aged 10 to 50, the first three in team1, the last two in team2. */
module RepositoryFixture {
  import opened Nullable
  import opened Entities
  import SpringStrings
  import opened SearchConditionDto
  import opened SearchSpec
  import opened MemberJpaRepository
  import opened SearchProperties

  /** The identifiers are the persistence layer's choice; these are one possible assignment. */
  function Fixture(): seq<Member>
  {
    var team1 := Team(6, Some("team1"));
    var team2 := Team(7, Some("team2"));
    [ Member(1, Some("member1"), 10, Some(team1)),
      Member(2, Some("member2"), 20, Some(team1)),
      Member(3, Some("member3"), 30, Some(team1)),
      Member(4, Some("member4"), 40, Some(team2)),
      Member(5, Some("member5"), 50, Some(team2)) ]
  }

  /** Ages 35 to 45 in team2 select member4 alone, under both strategies. */
  lemma FixtureSearch(c: MemberSearchCondition)
    requires c.username.None? && c.teamName == Some("team2")
    requires c.ageGoe == Some(35) && c.ageLoe == Some(45)
    ensures Search(Fixture(), c) == [MemberTeamDto(4, Some("member4"), 40, Some(7), Some("team2"))]
    ensures Selected(Fixture(), c, HasTextRule) == Search(Fixture(), c)
  {
    assert !SpringStrings.IsWhitespace("team2"[0]);
    StrategiesAgree(Fixture(), c);
    SearchIsSelected(Fixture(), c);
    var s := Fixture();
    var row4 := MemberTeamDto(4, Some("member4"), 40, Some(7), Some("team2"));
    assert s[4..][1..] == [] && s[3..][1..] == s[4..] && s[2..][1..] == s[3..] && s[1..][1..] == s[2..];
    assert Selected(s[4..], c, LengthRule) == [];
    assert Selected(s[3..], c, LengthRule) == [row4];
    assert Selected(s[2..], c, LengthRule) == [row4];
    assert Selected(s[1..], c, LengthRule) == [row4];
  }

  /**
   * The two repository tests: the condition is built through its setters and
   * each search's first row is member4's. Neither search can change the
   * store or the condition: `Search` is a function and `SearchByBuilder` has
   * no `modifies` clause.
   */
  method SearchScenario() returns (byBuilder: Option<string>, bySearch: Option<string>)
    ensures byBuilder == Some("member4") && bySearch == Some("member4")
  {
    var condition := new MemberSearchCondition();
    condition.SetAgeGoe(Some(35));
    condition.SetAgeLoe(Some(45));
    condition.SetTeamName(Some("team2"));
    var store := Fixture();

    var rows := SearchByBuilder(store, condition);
    FixtureSearch(condition);
    byBuilder := rows[0].username;

    var listed := Search(store, condition);
    bySearch := listed[0].username;
  }
}
