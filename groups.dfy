/** Groups and their members: static, validated descriptions of a voting body. */
module Groups {
  import opened Base
  import opened Votes
  import opened Tallies

  datatype GroupInfo = GroupInfo(
    groupId: uint64,
    admin: seq<byte>,
    comment: string,
    version: uint64,
    totalWeight: Dec)
  {
    /** A group needs a nonzero id and version, a well-formed admin address
        and a total weight that is set and not negative. */
    function ValidateBasic(): (r: Result<()>)
      ensures r.Ok? <==> groupId != 0 && ValidAddress(admin) && version != 0
                         && totalWeight.Some? && totalWeight.value >= 0.0
      ensures r.Err? ==> r.error == InvalidEntity
    {
      if groupId == 0 then Err(InvalidEntity)
      else if !ValidAddress(admin) then Err(InvalidEntity)
      else if version == 0 then Err(InvalidEntity)
      else if totalWeight.None? || totalWeight.value < 0.0 then Err(InvalidEntity)
      else Ok(())
    }
  }

  datatype GroupMember = GroupMember(
    groupId: uint64,
    member: seq<byte>,
    weight: Dec,
    comment: string)
  {
    /** A member needs a nonzero group id, a well-formed address and a weight
        that is set and strictly positive. */
    function ValidateBasic(): (r: Result<()>)
      ensures r.Ok? <==> groupId != 0 && ValidAddress(member)
                         && weight.Some? && weight.value > 0.0
      ensures r.Err? ==> r.error == InvalidEntity
    {
      if groupId == 0 then Err(InvalidEntity)
      else if !ValidAddress(member) then Err(InvalidEntity)
      else if weight.None? || weight.value <= 0.0 then Err(InvalidEntity)
      else Ok(())
    }
  }

  /** The vote of a valid member can always be cast into a valid tally, and
      withdrawn again. */
  lemma MemberVoteIsCountable(m: GroupMember, t: Counts, c: Choice)
    requires m.ValidateBasic().Ok? && t.IsValid() && c.IsVote()
    ensures t.Plus(c, m.weight).Ok?
    ensures t.Plus(c, m.weight).value.Minus(c, m.weight) == Ok(t)
  {
  }
}
