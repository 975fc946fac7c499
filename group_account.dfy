/** Group accounts: an address empowered to act for a group under a decision policy. */
module GroupAccounts {
  import opened Base
  import opened Policies

  /** `decisionPolicy` is None when no policy is attached. */
  datatype GroupAccountInfo = GroupAccountInfo(
    address: seq<byte>,
    groupId: uint64,
    admin: seq<byte>,
    comment: string,
    version: uint64,
    decisionPolicy: Option<DecisionPolicy>)
  {
    /** Needs well-formed address and admin, nonzero group id and version, and
        a decision policy that is present and passes its own ValidateBasic,
        whose error is passed on unchanged. */
    function ValidateBasic(): (r: Result<()>)
      ensures r.Ok? <==> ValidAddress(address) && ValidAddress(admin) && groupId != 0
                         && version != 0 && decisionPolicy.Some?
                         && decisionPolicy.value.ValidateBasic().Ok?
      ensures r.Err? && ValidAddress(address) && ValidAddress(admin) && groupId != 0
              && version != 0 && decisionPolicy.Some?
              ==> r == decisionPolicy.value.ValidateBasic()
    {
      if !ValidAddress(address) then Err(InvalidEntity)
      else if !ValidAddress(admin) then Err(InvalidEntity)
      else if groupId == 0 then Err(InvalidEntity)
      else if version == 0 then Err(InvalidEntity)
      else if decisionPolicy.None? then Err(InvalidEntity)
      else decisionPolicy.value.ValidateBasic()
    }
  }

  /** Builds a group account holding the given policy; it never fails and
      checks nothing: validation is left to ValidateBasic. */
  function NewGroupAccountInfo(address: seq<byte>, groupId: uint64, admin: seq<byte>,
                               comment: string, version: uint64,
                               policy: DecisionPolicy): (r: Result<GroupAccountInfo>)
    ensures r.Ok?
    ensures r.value.address == address && r.value.groupId == groupId && r.value.admin == admin
    ensures r.value.comment == comment && r.value.version == version
    ensures r.value.decisionPolicy == Some(policy)
  {
    Ok(GroupAccountInfo(address, groupId, admin, comment, version, Some(policy)))
  }

  /** A freshly built group account is valid exactly when its fields and its
      policy are. */
  lemma NewGroupAccountInfoValidIff(address: seq<byte>, groupId: uint64, admin: seq<byte>,
                                    comment: string, version: uint64,
                                    policy: ThresholdDecisionPolicy)
    ensures NewGroupAccountInfo(address, groupId, admin, comment, version, Threshold(policy))
              .value.ValidateBasic().Ok?
            <==> ValidAddress(address) && ValidAddress(admin) && groupId != 0 && version != 0
                 && policy.ValidateBasic().Ok?
  {
  }
}
