/**
 * An explicit model of the part of the query library the repository uses:
 * boolean predicates over a member left-joined to its team, the
 * `BooleanBuilder` conjunction, and a read-only select that filters the
 * joined rows and projects each one to a `MemberTeamDto`.
 *
 * A predicate that is "not there" (Java `null`) is `None : Option<Pred>`; it
 * is distinct from every `Pred`, and it never appears inside a `Pred`.
 */
module Querydsl {
  import opened Nullable
  import opened Entities

  datatype Pred =
    | UsernameEq(username: string)   // member.username = ?
    | TeamNameEq(teamName: string)   // team.name = ?, over the left join
    | AgeGoe(lower: Int32)           // member.age >= ?
    | AgeLoe(upper: Int32)           // member.age <= ?
    | And(left: Pred, right: Pred)

  /**
   * The WHERE value of a predicate on one joined row. A comparison with a
   * NULL column (no username, no team, no team name) is never true, and since
   * only conjunctions occur, SQL's UNKNOWN behaves here exactly as false.
   */
  predicate Eval(p: Pred, m: Member)
  {
    match p
    case UsernameEq(s) => m.username == Some(s)
    case TeamNameEq(s) => JoinedTeamName(m.team) == Some(s)
    case AgeGoe(n) => m.age >= n
    case AgeLoe(n) => m.age <= n
    case And(l, r) => Eval(l, m) && Eval(r, m)
  }

  /** An absent predicate puts no constraint on the row. */
  predicate Holds(p: Option<Pred>, m: Member)
  {
    p.None? || Eval(p.value, m)
  }

  /**
   * `BooleanBuilder.and(right)`: an empty builder takes `right` as its value,
   * a non-empty one becomes the conjunction of its value and `right`.
   */
  function BuilderAnd(builder: Option<Pred>, right: Pred): (r: Option<Pred>)
    ensures r.Some?
    ensures forall m :: Holds(r, m) <==> Holds(builder, m) && Eval(right, m)
  {
    if builder.None? then Some(right) else Some(And(builder.value, right))
  }

  /** `where(p1, ..., pn)`: the present predicates all hold, the absent ones are skipped. */
  predicate AllHold(where: seq<Option<Pred>>, m: Member)
  {
    forall i | 0 <= i < |where| :: Holds(where[i], m)
  }

  /**
   * `select(new QMemberTeamDto(...)).from(member).leftJoin(member.team, team)
   * .where(where...).fetch()` over the members of the store in store order.
   */
  function Fetch(store: seq<Member>, where: seq<Option<Pred>>): (rows: seq<MemberTeamDto>)
    ensures |rows| <= |store|
    ensures forall x :: x in rows <==> exists m :: m in store && AllHold(where, m) && x == Project(m)
    ensures multiset(rows) <= multiset(JoinAll(store))
  {
    if store == [] then []
    else
      assert forall m :: m in store <==> m == store[0] || m in store[1..];
      assert JoinAll(store) == [Project(store[0])] + JoinAll(store[1..]);
      (if AllHold(where, store[0]) then [Project(store[0])] else []) + Fetch(store[1..], where)
  }

  /** Two WHERE lists that accept the same rows select the same result, order included. */
  lemma {:induction false} FetchRespectsEquivalence(store: seq<Member>, w1: seq<Option<Pred>>, w2: seq<Option<Pred>>)
    requires forall m :: AllHold(w1, m) <==> AllHold(w2, m)
    ensures Fetch(store, w1) == Fetch(store, w2)
  {
    if store != [] {
      FetchRespectsEquivalence(store[1..], w1, w2);
    }
  }

  /** With no predicate at all, the select returns every member joined to its team. */
  lemma {:induction false} FetchUnfiltered(store: seq<Member>, where: seq<Option<Pred>>)
    requires forall i | 0 <= i < |where| :: where[i].None?
    ensures Fetch(store, where) == JoinAll(store)
  {
    if store != [] {
      FetchUnfiltered(store[1..], where);
      assert AllHold(where, store[0]);
      assert JoinAll(store) == [Project(store[0])] + JoinAll(store[1..]);
    }
  }
}
