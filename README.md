# Dynamic member search of learn-querydsl, modelled in Dafny

The application keeps members, each with an optional team, and offers a
search by an optional-field condition (`MemberSearchCondition`: username,
team name, minimum age, maximum age). `MemberJpaRepository` turns the
populated fields into a conjunction of predicates. It applies that conjunction
to the members left-joined to their team and projects each row to
`MemberTeamDto {memberId, username, age, teamId, teamName}`. It does this in
two ways:

- `searchByBuilder` ANDs predicates one at a time into a `BooleanBuilder`,
  guarding the strings with Spring's `hasText`;
- `search` passes four predicates to `where(...)`, each of which may be
  `null` ("no predicate"), guarding the strings with `null`/length-0 tests.

The model replaces the query library with an explicit predicate datatype, an
evaluator over one joined row, and a read-only select over an in-memory store.
The store is a sequence of members in insertion order.

Files and modules:

- `nullable.dfy` (`Nullable`): `Option`, standing for Java's nullable references.
- `entities.dfy` (`Entities`): `Team`, `Member`, `MemberTeamDto`, the left-join
  projection `Project`, and `Int32`/`Int64` for Java `int`/`long`.
- `spring_strings.dfy` (`SpringStrings`): `Character.isWhitespace` and `StringUtils.hasText`.
- `querydsl.dfy` (`Querydsl`): predicates (`Pred`), their value on a row
  (`Eval`, `Holds`), `BooleanBuilder.and` (`BuilderAnd`) and the select (`Fetch`).
- `member_search_condition.dfy` (`SearchConditionDto`): the mutable condition
  bean as a class with four fields, a constructor and four setters.
- `search_spec.dfy` (`SearchSpec`): a reference description of what a
  condition selects (`Matches`, `Selected`). It is written on the condition's
  fields, with no predicate objects. It is parameterised by the string rule:
  `LengthRule` for `search`, `HasTextRule` for `searchByBuilder`.
- `member_jpa_repository.dfy` (`MemberJpaRepository`): `FindById`,
  `FindByUsername`, the five predicate helpers, `Search` (a function, as the
  source is one expression) and `SearchByBuilder` (a method that updates a
  local builder).
- `search_properties.dfy` (`SearchProperties`): the properties of the two searches.
- `repository_fixture.dfy` (`RepositoryFixture`): the repository test's data and scenario.

Semantics chosen:

- A comparison with a NULL column (no username, no team, a team without a
  name) is false. The queries only use conjunctions, so SQL's UNKNOWN filters
  rows exactly as false does.
- `search` compares `member.team.name`, `searchByBuilder` compares the joined
  `team.name`. Each member has at most one team, so both accept exactly the
  members whose team carries that name.
- String equality (`username = ?`, `team.name = ?`) is exact: case-sensitive
  and sensitive to trailing spaces, as under a binary collation.
- Ages and bounds are only compared, never computed with, so `Int32` bounds
  the values and no wrap-around arises.

The two strategies differ on strings that hold only whitespace.
`search` skips a string only when it is null or empty
(`MemberJpaRepository.java:150`, `:156`). `searchByBuilder` skips every string
for which `hasText` is false (`:72`, `:75`). So a whitespace-only string
becomes an equality predicate in `search` and is ignored by `searchByBuilder`.
The two return the same rows on every store when neither string is
whitespace-only (`SearchProperties.StrategiesAgree`). For bounds that some age
can meet, they do so only then: a whitespace-only string gives a store on
which they differ (`SearchProperties.StrategiesDivergeOnBlank`). When
`ageGoe > ageLoe`, both return nothing, so they agree even on blank strings.

## Model

| member | source | states |
|---|---|---|
| `SearchConditionDto.MemberSearchCondition.constructor` | src/main/java/org/javastudy/learnquerydsl/dto/MemberSearchCondition.java:5-12 | a new condition has all four fields null (no initialisers) |
| `SearchConditionDto.MemberSearchCondition.SetUsername` | src/main/java/org/javastudy/learnquerydsl/dto/MemberSearchCondition.java:5-8 | sets the username and leaves the other three fields unchanged |
| `SearchConditionDto.MemberSearchCondition.SetTeamName` | src/main/java/org/javastudy/learnquerydsl/dto/MemberSearchCondition.java:5-9 | sets the team name and leaves the other three fields unchanged |
| `SearchConditionDto.MemberSearchCondition.SetAgeGoe` | src/main/java/org/javastudy/learnquerydsl/dto/MemberSearchCondition.java:5-10 | sets the lower bound (boxed, so null is distinct from 0) and leaves the other three fields unchanged |
| `SearchConditionDto.MemberSearchCondition.SetAgeLoe` | src/main/java/org/javastudy/learnquerydsl/dto/MemberSearchCondition.java:5-11 | sets the upper bound and leaves the other three fields unchanged |
| `SearchConditionDto.MemberSearchCondition.Equals` | src/main/java/org/javastudy/learnquerydsl/dto/MemberSearchCondition.java:5-12 | never equal to null; equal to another condition exactly when their four fields are pairwise equal |
| `Querydsl.BuilderAnd` | src/main/java/org/javastudy/learnquerydsl/repository/MemberJpaRepository.java:71-83 | after `builder.and(p)` the builder is non-empty and accepts a row iff the old builder (empty: every row) and `p` accept it |
| `Querydsl.Fetch` | src/main/java/org/javastudy/learnquerydsl/repository/MemberJpaRepository.java:105-121 | a row is returned iff it is the left-join projection of a member accepted by every non-null predicate, and the rows are a sub-multiset of the full left join (at most one row per member) |
| `Querydsl.FetchRespectsEquivalence` | src/main/java/org/javastudy/learnquerydsl/repository/MemberJpaRepository.java:114-121 | WHERE lists that accept the same rows select the same result |
| `Querydsl.FetchUnfiltered` | src/main/java/org/javastudy/learnquerydsl/repository/MemberJpaRepository.java:93-96 | with only null predicates (an empty builder) every member is returned, joined to its team |
| `SearchSpec.Selected` | src/main/java/org/javastudy/learnquerydsl/repository/MemberJpaRepository.java:71-84 | the reference selection: the projections of exactly the members matching every field that takes part, at most one row per member |
| `SearchSpec.FetchIsSelected` | src/main/java/org/javastudy/learnquerydsl/repository/MemberJpaRepository.java:85-96 | a WHERE list accepting exactly the matching members makes the select return the reference selection |
| `MemberJpaRepository.FindById` | src/main/java/org/javastudy/learnquerydsl/repository/MemberJpaRepository.java:33-37 | the result is present iff some stored member has the id, and then it is a stored member with that id |
| `MemberJpaRepository.FindByUsername` | src/main/java/org/javastudy/learnquerydsl/repository/MemberJpaRepository.java:52-56 | returns exactly the stored members whose username equals the argument, each at most once (a sub-multiset of the store); nothing for a null argument |
| `MemberJpaRepository.UsernameEq` | src/main/java/org/javastudy/learnquerydsl/repository/MemberJpaRepository.java:153-157 | no predicate iff the name is null or empty; otherwise a predicate accepting exactly the members with that username |
| `MemberJpaRepository.TeamNameEq` | src/main/java/org/javastudy/learnquerydsl/repository/MemberJpaRepository.java:147-151 | no predicate iff the name is null or empty; otherwise a predicate accepting exactly the members whose team has that name (never one without a team) |
| `MemberJpaRepository.AgeGoe` | src/main/java/org/javastudy/learnquerydsl/repository/MemberJpaRepository.java:141-145 | no predicate iff the bound is null (0 is a bound); otherwise exactly the members with `age >= bound`, unclamped |
| `MemberJpaRepository.AgeLoe` | src/main/java/org/javastudy/learnquerydsl/repository/MemberJpaRepository.java:135-139 | no predicate iff the bound is null; otherwise exactly the members with `age <= bound`, unclamped |
| `MemberJpaRepository.AgeBetween` | src/main/java/org/javastudy/learnquerydsl/repository/MemberJpaRepository.java:124-133 | both bounds: their conjunction; only one: that bound alone; neither: no predicate; it accepts a member iff both bound predicates do |
| `MemberJpaRepository.SearchByBuilder` | src/main/java/org/javastudy/learnquerydsl/repository/MemberJpaRepository.java:67-98 | returns the reference selection with `hasText` deciding which strings take part; reads the store and the condition only |
| `MemberJpaRepository.SearchWhereMatches` | src/main/java/org/javastudy/learnquerydsl/repository/MemberJpaRepository.java:114-119 | the four predicates of `search` all accept a member iff it matches the condition under the length rule |
| `MemberJpaRepository.Search` | src/main/java/org/javastudy/learnquerydsl/repository/MemberJpaRepository.java:100-122 | returns the reference selection in which null and empty strings take no part; reads the store and the condition only |
| `SearchProperties.SearchIsSelected` | src/main/java/org/javastudy/learnquerydsl/repository/MemberJpaRepository.java:100-122 | a row of `search` is returned iff it projects a stored member that satisfies every non-absent predicate, and no member yields two rows |
| `SearchProperties.SelectedRespectsMatches` | src/main/java/org/javastudy/learnquerydsl/repository/MemberJpaRepository.java:71-84 | two conditions accepting the same members select the same rows |
| `SearchProperties.SearchAllAbsent` | src/main/java/org/javastudy/learnquerydsl/repository/MemberJpaRepository.java:114-121 | with all four fields absent `search` returns every member, each joined to its team |
| `SearchProperties.BuilderAllAbsent` | src/main/java/org/javastudy/learnquerydsl/repository/MemberJpaRepository.java:71-96 | with no field passing its guard the builder stays empty and every member is returned |
| `SearchProperties.SearchRowsComeFromMembers` | src/main/java/org/javastudy/learnquerydsl/repository/MemberJpaRepository.java:106-112 | each row's memberId, username and age are a matching member's, and its teamId/teamName are that member's team's, null without a team |
| `SearchProperties.TeamlessMemberKept` | src/main/java/org/javastudy/learnquerydsl/repository/MemberJpaRepository.java:120 | left join: with no team-name filter a member without a team that passes the other filters is returned with null teamId and teamName |
| `SearchProperties.TeamFilterExcludesTeamless` | src/main/java/org/javastudy/learnquerydsl/repository/MemberJpaRepository.java:147-151 | with a team-name filter every row has a team, the named one, so members without a team are excluded |
| `SearchProperties.UnknownTeamSelectsNothing` | src/main/java/org/javastudy/learnquerydsl/repository/MemberJpaRepository.java:147-151 | a team name that no member's team carries selects nothing |
| `SearchProperties.StrategiesAgree` | src/main/java/org/javastudy/learnquerydsl/repository/MemberJpaRepository.java:72-75 | both strategies return the same rows, in the same order, when neither string is whitespace-only |
| `SearchProperties.StrategiesDivergeOnBlank` | src/main/java/org/javastudy/learnquerydsl/repository/MemberJpaRepository.java:150-156 | if a string is whitespace-only (and the bounds can be met), some store makes the strategies differ |
| `SearchProperties.BuilderBlankIsAbsent` | src/main/java/org/javastudy/learnquerydsl/repository/MemberJpaRepository.java:72-73 | for `searchByBuilder` an empty or whitespace-only username is the same as null |
| `SearchProperties.SearchEmptyIsAbsent` | src/main/java/org/javastudy/learnquerydsl/repository/MemberJpaRepository.java:153-157 | for `search` an empty username is the same as null |
| `SearchProperties.AgeBetweenInSearch` | src/main/java/org/javastudy/learnquerydsl/repository/MemberJpaRepository.java:124-133 | passing the bounds pre-combined by `ageBetween` selects what `search` selects |
| `RepositoryFixture.SearchScenario` | src/test/java/org/javastudy/learnquerydsl/repository/MemberJpaRepositoryTest.java:60-130 | a condition built by the constructor and three setters makes both searches return member4 as the first row |
| `RepositoryFixture.FixtureSearch` | src/test/java/org/javastudy/learnquerydsl/repository/MemberJpaRepositoryTest.java:86-129 | on the test data, ages 35 to 45 in team2 select member4 alone (so first), under both strategies |

## Left out

- `save`, `findAll` and `findAll_Querydsl`: pass-through calls to the persistence layer; the store itself is what `findAll` returns.
- `FindById`: a null identifier, for which the persistence layer throws, is not modelled; the parameter is a non-null `Int64`.
- Identifier generation and `Member.changeTeam`: the persistence layer's. A store is given with its final teams, and the fixture's identifiers are one possible assignment.
- `Team.members`, the back-reference list: it is the inverse of each member's team and carries no behaviour the search uses.
- `Search`, `SearchByBuilder`: a null condition, for which the source throws a `NullPointerException` on the first getter call, is not modelled; the parameter is a non-null `MemberSearchCondition`.
- String comparison under other database collations (case-insensitive, or PAD SPACE, which would make `' '` equal `''`) is not modelled. The results about whitespace-only strings, unknown team names and the fixture rely on exact comparison.
- Result order: neither query has an ORDER BY. The model returns rows in store order, which is one order the database may choose.
- Lombok's `hashCode`, `toString` and getters of the condition: the model reads the fields directly.
- `Equals`: takes a `MemberSearchCondition?`, so an argument of another class is not modelled; Lombok's `equals(Object)` returns false for one.
- `findByUsername_Querydsl` (`MemberJpaRepository.java:58-65`): returns the same rows as `findByUsername` for a non-null name; for a null name the query library's `eq(null)` throws, which is not modelled.
- `SpringStrings.IsWhitespace`: follows `Character.isWhitespace` for current Unicode versions. U+180E, whitespace only under Unicode 6.2 and earlier, is treated as non-whitespace. Java's `String` holds UTF-16 units, a Dafny `string` holds Unicode scalar values; no supplementary character is whitespace, so `hasText` agrees.
- Transactions, concurrency and the query library's SQL generation: the persistence layer's.
