/** What the two searches promise, proved against the reference description. */
module SearchProperties {
  import opened Nullable
  import opened Entities
  import SpringStrings
  import Q = Querydsl
  import opened SearchConditionDto
  import opened SearchSpec
  import opened MemberJpaRepository

  /** A string holding only whitespace: `search` filters on it, `searchByBuilder` ignores it. */
  predicate IsBlank(s: Option<string>)
  {
    s.Some? && |s.value| > 0 && !SpringStrings.HasText(s.value)
  }

  /** A row of `search` is the projection of a stored member matching the condition, and every such projection is a row. */
  lemma SearchIsSelected(store: seq<Member>, c: MemberSearchCondition)
    ensures forall x :: x in Search(store, c) <==> exists m :: m in store && Matches(c, LengthRule, m) && x == Project(m)
    ensures multiset(Search(store, c)) <= multiset(JoinAll(store))
  {
    assert Search(store, c) == Selected(store, c, LengthRule);
  }

  /** Two conditions accepting the same members select the same rows. */
  lemma {:induction false} SelectedRespectsMatches(store: seq<Member>, c1: MemberSearchCondition, r1: TextRule,
                                                   c2: MemberSearchCondition, r2: TextRule)
    requires forall m :: Matches(c1, r1, m) <==> Matches(c2, r2, m)
    ensures Selected(store, c1, r1) == Selected(store, c2, r2)
  {
    if store != [] {
      SelectedRespectsMatches(store[1..], c1, r1, c2, r2);
    }
  }

  /** With no field taking part, `search` returns every member joined to its team. */
  lemma SearchAllAbsent(store: seq<Member>, c: MemberSearchCondition)
    requires !Filters(LengthRule, c.username) && !Filters(LengthRule, c.teamName)
    requires c.ageGoe.None? && c.ageLoe.None?
    ensures Search(store, c) == JoinAll(store)
    ensures |Search(store, c)| == |store|
  {
    var w := SearchWhere(c);
    assert forall i | 0 <= i < |w| :: w[i].None?;
    Q.FetchUnfiltered(store, w);
  }

  /** The same holds of `searchByBuilder`, whose empty builder selects every member. */
  lemma {:induction false} BuilderAllAbsent(store: seq<Member>, c: MemberSearchCondition)
    requires !Filters(HasTextRule, c.username) && !Filters(HasTextRule, c.teamName)
    requires c.ageGoe.None? && c.ageLoe.None?
    ensures Selected(store, c, HasTextRule) == JoinAll(store)
  {
    if store != [] {
      BuilderAllAbsent(store[1..], c);
      assert JoinAll(store) == [Project(store[0])] + JoinAll(store[1..]);
    }
  }

  /** Every row's member fields come from one member of the store, and its team fields from that member's team. */
  lemma SearchRowsComeFromMembers(store: seq<Member>, c: MemberSearchCondition)
    ensures forall x :: x in Search(store, c) ==>
      exists m :: m in store && Matches(c, LengthRule, m)
        && x.memberId == m.id && x.username == m.username && x.age == m.age
        && (m.team.None? ==> x.teamId.None? && x.teamName.None?)
        && (m.team.Some? ==> x.teamId == Some(m.team.value.id) && x.teamName == m.team.value.name)
  {
    SearchIsSelected(store, c);
  }

  /** Left join: with no team-name filter, a member without a team is still returned, with null team columns. */
  lemma TeamlessMemberKept(store: seq<Member>, c: MemberSearchCondition, m: Member)
    requires m in store && m.team.None?
    requires !Filters(LengthRule, c.teamName)
    requires Filters(LengthRule, c.username) ==> m.username == c.username
    requires c.ageGoe.Some? ==> m.age >= c.ageGoe.value
    requires c.ageLoe.Some? ==> m.age <= c.ageLoe.value
    ensures MemberTeamDto(m.id, m.username, m.age, None, None) in Search(store, c)
  {
  }

  /** With a team-name filter, every row has a team, and it is the named one: members without a team are excluded. */
  lemma TeamFilterExcludesTeamless(store: seq<Member>, c: MemberSearchCondition)
    requires Filters(LengthRule, c.teamName)
    ensures forall x :: x in Search(store, c) ==> x.teamId.Some? && x.teamName == c.teamName
  {
    SearchIsSelected(store, c);
  }

  /** A team name that no member's team carries selects nothing. */
  lemma {:induction false} UnknownTeamSelectsNothing(store: seq<Member>, c: MemberSearchCondition)
    requires Filters(LengthRule, c.teamName)
    requires forall m | m in store :: m.team.None? || m.team.value.name != c.teamName
    ensures Search(store, c) == []
  {
    if store != [] {
      SearchWhereMatches(c);
      UnknownTeamSelectsNothing(store[1..], c);
    }
  }

  /**
   * Both strategies select the same rows, in the same order, for every
   * condition whose strings are null, empty, or have text.
   */
  lemma StrategiesAgree(store: seq<Member>, c: MemberSearchCondition)
    requires !IsBlank(c.username) && !IsBlank(c.teamName)
    ensures Selected(store, c, HasTextRule) == Search(store, c)
  {
    SearchIsSelected(store, c);
    SelectedRespectsMatches(store, c, HasTextRule, c, LengthRule);
  }

  /**
   * And only for those: a condition with a whitespace-only string (and bounds
   * some age can meet) has a store on which the two strategies differ.
   */
  lemma StrategiesDivergeOnBlank(c: MemberSearchCondition)
    requires IsBlank(c.username) || IsBlank(c.teamName)
    requires c.ageGoe.Some? && c.ageLoe.Some? ==> c.ageGoe.value <= c.ageLoe.value
    ensures exists store :: Selected(store, c, HasTextRule) != Search(store, c)
  {
    var username := if IsBlank(c.username) then None else c.username;
    var team := if IsBlank(c.teamName) || c.teamName.None? then None else Some(Team(0, c.teamName));
    var age: Int32 := if c.ageGoe.Some? then c.ageGoe.value else if c.ageLoe.Some? then c.ageLoe.value else 0;
    var w := Member(0, username, age, team);
    assert Matches(c, HasTextRule, w);
    assert !Matches(c, LengthRule, w);
    assert [w][1..] == [];
    assert Selected([w], c, HasTextRule) == [Project(w)];
    assert Search([w], c) == Selected([w], c, LengthRule) == [];
  }

  /** A whitespace-only or empty string is the same as null for `searchByBuilder`. */
  lemma {:induction false} BuilderBlankIsAbsent(store: seq<Member>, c1: MemberSearchCondition, c2: MemberSearchCondition)
    requires IsBlank(c1.username) || c1.username == Some("")
    requires c2.username.None?
    requires c1.teamName == c2.teamName && c1.ageGoe == c2.ageGoe && c1.ageLoe == c2.ageLoe
    ensures Selected(store, c1, HasTextRule) == Selected(store, c2, HasTextRule)
  {
    SelectedRespectsMatches(store, c1, HasTextRule, c2, HasTextRule);
  }

  /** An empty string is the same as null for `search`. */
  lemma SearchEmptyIsAbsent(store: seq<Member>, c1: MemberSearchCondition, c2: MemberSearchCondition)
    requires c1.username == Some("") && c2.username.None?
    requires c1.teamName == c2.teamName && c1.ageGoe == c2.ageGoe && c1.ageLoe == c2.ageLoe
    ensures Search(store, c1) == Search(store, c2)
  {
  }

  /** Passing the two bounds pre-combined by `ageBetween` selects what `search` selects. */
  lemma AgeBetweenInSearch(store: seq<Member>, c: MemberSearchCondition)
    ensures Q.Fetch(store, [UsernameEq(c.username), TeamNameEq(c.teamName), AgeBetween(c.ageLoe, c.ageGoe)])
         == Search(store, c)
  {
    var w1 := [UsernameEq(c.username), TeamNameEq(c.teamName), AgeBetween(c.ageLoe, c.ageGoe)];
    var w2 := SearchWhere(c);
    forall m ensures Q.AllHold(w1, m) <==> Q.AllHold(w2, m) {
      assert Q.AllHold(w1, m) <==> Q.Holds(w1[0], m) && Q.Holds(w1[1], m) && Q.Holds(w1[2], m);
      assert Q.AllHold(w2, m) <==> Q.Holds(w2[0], m) && Q.Holds(w2[1], m) && Q.Holds(w2[2], m) && Q.Holds(w2[3], m);
    }
    Q.FetchRespectsEquivalence(store, w1, w2);
  }
}
