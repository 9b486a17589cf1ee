/**
 * A reference description of what a search condition asks for, stated on
 * the condition's fields directly and without any predicate objects. The two
 * search strategies differ only in which strings count as "given": the
 * predicate-list search skips null and empty strings (`LengthRule`), the
 * builder search skips every string without text (`HasTextRule`).
 */
module SearchSpec {
  import opened Nullable
  import opened Entities
  import SpringStrings
  import Q = Querydsl
  import opened SearchConditionDto

  datatype TextRule = LengthRule | HasTextRule

  /** Whether a string field of the condition takes part in the search under `rule`. */
  predicate Filters(rule: TextRule, s: Option<string>)
  {
    s.Some? && match rule
               case LengthRule => |s.value| > 0
               case HasTextRule => SpringStrings.HasText(s.value)
  }

  /** The member, left-joined to its team, satisfies every field of the condition that takes part. */
  predicate Matches(c: MemberSearchCondition, rule: TextRule, m: Member)
    reads c
  {
    && (Filters(rule, c.username) ==> m.username == c.username)
    && (Filters(rule, c.teamName) ==> m.team.Some? && m.team.value.name == c.teamName)
    && (c.ageGoe.Some? ==> m.age >= c.ageGoe.value)
    && (c.ageLoe.Some? ==> m.age <= c.ageLoe.value)
  }

  /** The projections of the matching members, in store order. */
  function Selected(store: seq<Member>, c: MemberSearchCondition, rule: TextRule): (rows: seq<MemberTeamDto>)
    reads c
    ensures |rows| <= |store|
    ensures forall x :: x in rows <==> exists m :: m in store && Matches(c, rule, m) && x == Project(m)
    ensures multiset(rows) <= multiset(JoinAll(store))
  {
    if store == [] then []
    else
      assert forall m :: m in store <==> m == store[0] || m in store[1..];
      assert JoinAll(store) == [Project(store[0])] + JoinAll(store[1..]);
      (if Matches(c, rule, store[0]) then [Project(store[0])] else []) + Selected(store[1..], c, rule)
  }

  /** A WHERE list that accepts exactly the matching members makes the select return `Selected`. */
  lemma {:induction false} FetchIsSelected(store: seq<Member>, where: seq<Option<Q.Pred>>,
                                           c: MemberSearchCondition, rule: TextRule)
    requires forall m :: Q.AllHold(where, m) <==> Matches(c, rule, m)
    ensures Q.Fetch(store, where) == Selected(store, c, rule)
  {
    if store != [] {
      FetchIsSelected(store[1..], where, c, rule);
    }
  }
}
