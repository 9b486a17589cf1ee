/**
 * The repository's read operations over an in-memory store of members, each
 * carrying its optional team. The persistence layer is replaced by the store
 * (a sequence in insertion order) and the query library by `Querydsl`.
 */
module MemberJpaRepository {
  import opened Nullable
  import opened Entities
  import SpringStrings
  import Q = Querydsl
  import opened SearchConditionDto
  import opened SearchSpec

  /** `em.find(Member.class, id)` wrapped in an Optional: the member with that identifier, if any. */
  function FindById(store: seq<Member>, id: Int64): (r: Option<Member>)
    ensures r.Some? <==> exists i | 0 <= i < |store| :: store[i].id == id
    ensures r.Some? ==> r.value in store && r.value.id == id
  {
    if store == [] then None
    else if store[0].id == id then Some(store[0])
    else
      var r := FindById(store[1..], id);
      assert forall i | 1 <= i < |store| :: store[i] == store[1..][i - 1];
      r
  }

  /**
   * `select m from Member m where m.username = :username`. A null parameter
   * compares as NULL and selects nothing; the result keeps store order.
   */
  function FindByUsername(store: seq<Member>, username: Option<string>): (found: seq<Member>)
    ensures |found| <= |store|
    ensures forall m :: m in found <==> m in store && username.Some? && m.username == username
    ensures multiset(found) <= multiset(store)
  {
    if store == [] then []
    else
      assert forall m :: m in store <==> m == store[0] || m in store[1..];
      assert store == [store[0]] + store[1..];
      (if username.Some? && store[0].username == username then [store[0]] else [])
      + FindByUsername(store[1..], username)
  }

  /** `usernameEq`: no predicate for a null or empty name, otherwise `member.username = name`. */
  function UsernameEq(username: Option<string>): (r: Option<Q.Pred>)
    ensures r.None? <==> (username.None? || |username.value| == 0)
    ensures r.Some? ==> forall m :: Q.Eval(r.value, m) <==> m.username == username
  {
    if username.None? || |username.value| == 0 then None else Some(Q.UsernameEq(username.value))
  }

  /**
   * `teamNameEq`: no predicate for a null or empty name, otherwise a
   * comparison with the joined team's name, which a member without a team fails.
   */
  function TeamNameEq(teamName: Option<string>): (r: Option<Q.Pred>)
    ensures r.None? <==> (teamName.None? || |teamName.value| == 0)
    ensures r.Some? ==> forall m :: Q.Eval(r.value, m) <==> m.team.Some? && m.team.value.name == teamName
  {
    if teamName.None? || |teamName.value| == 0 then None else Some(Q.TeamNameEq(teamName.value))
  }

  /** `ageGoe`: no predicate for a null bound, otherwise the inclusive `age >= bound`, unclamped. */
  function AgeGoe(ageGoe: Option<Int32>): (r: Option<Q.Pred>)
    ensures r.None? <==> ageGoe.None?
    ensures r.Some? ==> forall m :: Q.Eval(r.value, m) <==> m.age >= ageGoe.value
  {
    if ageGoe.Some? then Some(Q.AgeGoe(ageGoe.value)) else None
  }

  /** `ageLoe`: no predicate for a null bound, otherwise the inclusive `age <= bound`, unclamped. */
  function AgeLoe(ageLoe: Option<Int32>): (r: Option<Q.Pred>)
    ensures r.None? <==> ageLoe.None?
    ensures r.Some? ==> forall m :: Q.Eval(r.value, m) <==> m.age <= ageLoe.value
  {
    if ageLoe.Some? then Some(Q.AgeLoe(ageLoe.value)) else None
  }

  /**
   * `ageBetween(loe, goe)`: the conjunction of both bounds when both are
   * given, the one bound when only one is, and no predicate when neither is.
   * It accepts exactly the members that both bound predicates accept.
   */
  function AgeBetween(ageLoe: Option<Int32>, ageGoe: Option<Int32>): (r: Option<Q.Pred>)
    ensures ageLoe.Some? && ageGoe.Some? ==> r == Some(Q.And(AgeLoe(ageLoe).value, AgeGoe(ageGoe).value))
    ensures ageLoe.Some? && ageGoe.None? ==> r == AgeLoe(ageLoe)
    ensures ageLoe.None? ==> r == AgeGoe(ageGoe)
    ensures r.None? <==> ageLoe.None? && ageGoe.None?
    ensures forall m :: Q.Holds(r, m) <==> Q.Holds(AgeLoe(ageLoe), m) && Q.Holds(AgeGoe(ageGoe), m)
  {
    if ageLoe.Some? && ageGoe.Some? then
      Some(Q.And(AgeLoe(ageLoe).value, AgeGoe(ageGoe).value))
    else if ageLoe.Some? then
      AgeLoe(ageLoe)
    else
      AgeGoe(ageGoe)
  }

  /** The four arguments of `where(...)` in `search`, a `None` entry being a skipped null. */
  function SearchWhere(condition: MemberSearchCondition): seq<Option<Q.Pred>>
    reads condition
  {
    [UsernameEq(condition.username), TeamNameEq(condition.teamName),
     AgeGoe(condition.ageGoe), AgeLoe(condition.ageLoe)]
  }

  /** The four predicates of `search` all accept a member exactly when it matches the condition. */
  lemma SearchWhereMatches(condition: MemberSearchCondition)
    ensures forall m :: Q.AllHold(SearchWhere(condition), m) <==> Matches(condition, LengthRule, m)
  {
    var w := SearchWhere(condition);
    forall m ensures Q.AllHold(w, m) <==> Matches(condition, LengthRule, m) {
      assert Q.AllHold(w, m) <==> Q.Holds(w[0], m) && Q.Holds(w[1], m) && Q.Holds(w[2], m) && Q.Holds(w[3], m);
    }
  }

  /**
   * `search`: the predicate-list strategy. It returns the reference
   * selection in which null and empty strings take no part.
   */
  function Search(store: seq<Member>, condition: MemberSearchCondition): (rows: seq<MemberTeamDto>)
    reads condition
    ensures rows == Selected(store, condition, LengthRule)
  {
    SearchWhereMatches(condition);
    FetchIsSelected(store, SearchWhere(condition), condition, LengthRule);
    Q.Fetch(store, SearchWhere(condition))
  }

  /**
   * `searchByBuilder`: the builder-accumulation strategy. Each string field
   * with text and each non-null bound is ANDed into the builder in turn; an
   * empty builder selects every member. The store and the condition are only read.
   */
  method SearchByBuilder(store: seq<Member>, condition: MemberSearchCondition)
    returns (rows: seq<MemberTeamDto>)
    ensures rows == Selected(store, condition, HasTextRule)
  {
    var builder: Option<Q.Pred> := None;
    if condition.username.Some? && SpringStrings.HasText(condition.username.value) {
      builder := Q.BuilderAnd(builder, Q.UsernameEq(condition.username.value));
    }
    if condition.teamName.Some? && SpringStrings.HasText(condition.teamName.value) {
      builder := Q.BuilderAnd(builder, Q.TeamNameEq(condition.teamName.value));
    }
    if condition.ageGoe.Some? {
      builder := Q.BuilderAnd(builder, Q.AgeGoe(condition.ageGoe.value));
    }
    if condition.ageLoe.Some? {
      builder := Q.BuilderAnd(builder, Q.AgeLoe(condition.ageLoe.value));
    }
    rows := Q.Fetch(store, [builder]);

    forall m ensures Q.AllHold([builder], m) <==> Matches(condition, HasTextRule, m) {
      assert [builder][0] == builder;
    }
    FetchIsSelected(store, [builder], condition, HasTextRule);
  }
}
