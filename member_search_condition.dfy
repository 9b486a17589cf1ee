/**
 * The search condition bean: four independent nullable fields, all null
 * after construction, each set through its own setter.
 */
module SearchConditionDto {
  import opened Nullable
  import opened Entities

  class MemberSearchCondition {
    var username: Option<string>
    var teamName: Option<string>
    var ageGoe: Option<Int32>   // boxed Integer: null is not a bound
    var ageLoe: Option<Int32>

    /** The field initialisers are absent, so every field starts out null. */
    constructor ()
      ensures username.None? && teamName.None? && ageGoe.None? && ageLoe.None?
    {
      username, teamName, ageGoe, ageLoe := None, None, None, None;
    }

    method SetUsername(v: Option<string>)
      modifies this
      ensures username == v
      ensures teamName == old(teamName) && ageGoe == old(ageGoe) && ageLoe == old(ageLoe)
    {
      username := v;
    }

    method SetTeamName(v: Option<string>)
      modifies this
      ensures teamName == v
      ensures username == old(username) && ageGoe == old(ageGoe) && ageLoe == old(ageLoe)
    {
      teamName := v;
    }

    method SetAgeGoe(v: Option<Int32>)
      modifies this
      ensures ageGoe == v
      ensures username == old(username) && teamName == old(teamName) && ageLoe == old(ageLoe)
    {
      ageGoe := v;
    }

    method SetAgeLoe(v: Option<Int32>)
      modifies this
      ensures ageLoe == v
      ensures username == old(username) && teamName == old(teamName) && ageGoe == old(ageGoe)
    {
      ageLoe := v;
    }

    /**
     * The generated `equals`: false for null; true for the same object or for
     * another condition whose four fields are pairwise equal (nulls being
     * equal to each other only).
     */
    method Equals(other: MemberSearchCondition?) returns (eq: bool)
      ensures other == null ==> !eq
      ensures other != null ==>
        (eq <==> (username == other.username && teamName == other.teamName
                  && ageGoe == other.ageGoe && ageLoe == other.ageLoe))
    {
      if other == this {
        return true;
      }
      if other == null {
        return false;
      }
      eq := username == other.username;
      if eq { eq := teamName == other.teamName; }
      if eq { eq := ageGoe == other.ageGoe; }
      if eq { eq := ageLoe == other.ageLoe; }
    }
  }
}
