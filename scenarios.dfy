/** The behaviour the group module's table-driven tests pin down, stated as
    facts about the model. */
module Scenarios {
  import opened Base
  import opened Votes
  import opened Tallies
  import opened Groups
  import opened Policies
  import opened GroupAccounts

  const SECOND: int := 1_000_000_000
  const MILLISECOND: int := 1_000_000

  /** The bytes of an ASCII string. */
  function Ascii(s: string): (b: seq<byte>)
    ensures |b| == |s|
  {
    seq(|s|, i requires 0 <= i < |s| => (s[i] as int) % 256)
  }

  function Tally4(yes: real, no: real, abstain: real, veto: real): Counts {
    Counts(Some(yes), Some(no), Some(abstain), Some(veto))
  }

  lemma AllowScenarios()
    ensures var p := ThresholdDecisionPolicy(Some(1.0), SECOND);
            p.Allow(Counts(Some(2.0), None, None, None), Some(3.0), MILLISECOND) == Ok(Accepted)
            && p.Allow(Tally4(1.0, 0.0, 0.0, 0.0), Some(3.0), MILLISECOND) == Ok(Accepted)
            && p.Allow(Tally4(0.0, 0.0, 0.0, 0.0), Some(3.0), MILLISECOND) == Ok(Pending)
            && p.Allow(Counts(Some(2.0), None, None, None), Some(3.0), SECOND) == Ok(Rejected)
            && p.Allow(Counts(Some(2.0), None, None, None), Some(3.0), SECOND + 1) == Ok(Rejected)
            && p.Allow(Tally4(0.0, 0.0, 1.0, 0.0), Some(3.0), MILLISECOND) == Ok(Pending)
            && p.Allow(Tally4(0.0, 0.0, 0.0, 2.0), Some(3.0), MILLISECOND) == Ok(Pending)
    ensures ThresholdDecisionPolicy(Some(2.0), SECOND)
              .Allow(Tally4(0.0, 2.0, 0.0, 0.0), Some(3.0), MILLISECOND) == Ok(Rejected)
  {
  }

  lemma PolicyValidateScenarios()
    ensures var g := GroupInfo(0, [], "", 0, Some(1.0));
            ThresholdDecisionPolicy(Some(1.0), SECOND).Validate(g).Ok?
            && ThresholdDecisionPolicy(Some(2.0), SECOND).Validate(g) == Err(ThresholdTooHigh)
  {
  }

  lemma PolicyValidateBasicScenarios()
    ensures ThresholdDecisionPolicy(Some(1.0), SECOND).ValidateBasic().Ok?
    ensures ThresholdDecisionPolicy(None, SECOND).ValidateBasic().Err?
    ensures ThresholdDecisionPolicy(Some(1.0), 0).ValidateBasic().Err?
    ensures ThresholdDecisionPolicy(Some(1.0), (MAX_TIMEOUT_SECONDS + 1) * SECOND).ValidateBasic().Err?
    ensures ThresholdDecisionPolicy(Some(-1.0), SECOND).ValidateBasic().Err?
    ensures ThresholdDecisionPolicy(Some(0.0), SECOND).ValidateBasic().Err?
    ensures ThresholdDecisionPolicy(Some(1.0), -SECOND).ValidateBasic().Err?
  {
  }

  lemma NaturalKeyScenario()
    ensures NaturalKey(Vote(1, [0xff, 0xfe], Unspecified)) == [0, 0, 0, 0, 0, 0, 0, 1, 0xff, 0xfe]
  {
  }

  lemma GroupInfoScenarios()
    ensures var admin := Ascii("valid--admin-address");
            GroupInfo(1, admin, "any", 1, Some(0.0)).ValidateBasic().Ok?
            && GroupInfo(0, admin, "any", 1, Some(0.0)).ValidateBasic().Err?
            && GroupInfo(1, Ascii(""), "any", 1, Some(0.0)).ValidateBasic().Err?
            && GroupInfo(1, admin, "any", 0, Some(0.0)).ValidateBasic().Err?
            && GroupInfo(1, admin, "any", 1, None).ValidateBasic().Err?
            && GroupInfo(1, admin, "any", 1, Some(-1.0)).ValidateBasic().Err?
  {
  }

  lemma GroupMemberScenarios()
    ensures var member := Ascii("valid-member-address");
            GroupMember(1, member, Some(1.0), "any").ValidateBasic().Ok?
            && GroupMember(0, member, Some(1.0), "any").ValidateBasic().Err?
            && GroupMember(1, Ascii("invalid-member-address"), Some(1.0), "any").ValidateBasic().Err?
            && GroupMember(1, [], Some(1.0), "any").ValidateBasic().Err?
            && GroupMember(1, member, Some(0.0), "any").ValidateBasic().Err?
            && GroupMember(1, member, None, "any").ValidateBasic().Err?
  {
  }

  function Account(address: seq<byte>, groupId: uint64, admin: seq<byte>, version: uint64,
                   threshold: Dec, timeout: int): GroupAccountInfo
  {
    NewGroupAccountInfo(address, groupId, admin, "any", version,
                        Threshold(ThresholdDecisionPolicy(threshold, timeout))).value
  }

  lemma GroupAccountScenarios()
    ensures var acct, admin := Ascii("valid--group-address"), Ascii("valid--admin-address");
            Account(acct, 1, admin, 1, Some(1.0), SECOND).ValidateBasic().Ok?
            && Account(acct, 0, admin, 1, Some(1.0), SECOND).ValidateBasic().Err?
            && Account(Ascii("any-invalid-group-address"), 1, admin, 1, Some(1.0), SECOND).ValidateBasic().Err?
            && Account([], 1, admin, 1, Some(1.0), SECOND).ValidateBasic().Err?
            && Account(acct, 1, [], 1, Some(1.0), SECOND).ValidateBasic().Err?
            && Account(acct, 1, Ascii("any-invalid-admin-address"), 1, Some(1.0), SECOND).ValidateBasic().Err?
            && Account(acct, 1, admin, 0, Some(1.0), SECOND).ValidateBasic().Err?
            && Account(acct, 1, admin, 1, None, 0).ValidateBasic().Err?
            && Account(acct, 1, admin, 1, Some(1.0), 0).ValidateBasic().Err?
            && Account(acct, 1, admin, 1, Some(1.0), -SECOND).ValidateBasic().Err?
            && Account(acct, 1, admin, 1, None, SECOND).ValidateBasic().Err?
            && Account(acct, 1, admin, 1, Some(-1.0), SECOND).ValidateBasic().Err?
            && Account(acct, 1, admin, 1, Some(0.0), SECOND).ValidateBasic().Err?
  {
  }

  lemma TallyValidateBasicScenarios()
    ensures Tally4(1.0, 0.0, 0.0, 0.0).ValidateBasic().Ok?
    ensures Tally4(-1.0, 0.0, 0.0, 0.0).ValidateBasic().Err?
    ensures Tally4(0.0, -1.0, 0.0, 0.0).ValidateBasic().Err?
    ensures Tally4(0.0, 0.0, -1.0, 0.0).ValidateBasic().Err?
    ensures Tally4(0.0, 0.0, 0.0, -1.0).ValidateBasic().Err?
  {
  }

  lemma TotalCountsScenarios()
    ensures Tally4(1.0, 1.0, 1.0, 1.0).TotalCounts() == Ok(4.0)
    ensures Tally4(-1.0, 0.0, 0.0, 0.0).TotalCounts().Err?
    ensures Tally4(0.0, -1.0, 0.0, 0.0).TotalCounts().Err?
    ensures Tally4(0.0, 0.0, -1.0, 0.0).TotalCounts().Err?
    ensures Tally4(0.0, 0.0, 0.0, -1.0).TotalCounts().Err?
  {
  }

  lemma PlusScenarios()
    ensures var ones := Tally4(1.0, 1.0, 1.0, 1.0);
            ones.Plus(Yes, Some(4.0)) == Ok(Tally4(5.0, 1.0, 1.0, 1.0))
            && ones.Plus(No, Some(1.5)) == Ok(Tally4(1.0, 2.5, 1.0, 1.0))
            && ones.Plus(Abstain, Some(1.5)) == Ok(Tally4(1.0, 1.0, 2.5, 1.0))
            && ones.Plus(Veto, Some(1.5)) == Ok(Tally4(1.0, 1.0, 1.0, 2.5))
    ensures Tally4(-1.0, 0.0, 0.0, 0.0).Plus(Unspecified, Some(4.0)).Err?
    ensures Tally4(0.0, -1.0, 0.0, 0.0).Plus(Unspecified, Some(4.0)).Err?
    ensures Tally4(0.0, 0.0, -1.0, 0.0).Plus(Unspecified, Some(4.0)).Err?
    ensures Tally4(0.0, 0.0, 0.0, -1.0).Plus(Unspecified, Some(4.0)).Err?
  {
  }

  lemma MinusScenarios()
    ensures var ones := Tally4(1.0, 1.0, 1.0, 1.0);
            ones.Minus(Yes, Some(0.5)) == Ok(Tally4(0.5, 1.0, 1.0, 1.0))
            && ones.Minus(No, Some(0.5)) == Ok(Tally4(1.0, 0.5, 1.0, 1.0))
            && ones.Minus(Abstain, Some(0.5)) == Ok(Tally4(1.0, 1.0, 0.5, 1.0))
            && ones.Minus(Veto, Some(0.5)) == Ok(Tally4(1.0, 1.0, 1.0, 0.5))
            && ones.Minus(Yes, Some(2.0)) == Err(Underflow)
            && ones.Minus(No, Some(2.0)) == Err(Underflow)
            && ones.Minus(Abstain, Some(2.0)) == Err(Underflow)
            && ones.Minus(Veto, Some(2.0)) == Err(Underflow)
            && ones.Minus(Unspecified, Some(2.0)) == Err(InvalidChoice)
  {
  }

  /** Adding a yes vote of weight 4 to a tally of ones, in place. */
  method AddYesInPlace() returns (r: Result<()>, after: Counts)
    ensures r.Ok? && after == Tally4(5.0, 1.0, 1.0, 1.0)
  {
    var t := new Tally(Some(1.0), Some(1.0), Some(1.0), Some(1.0));
    r := t.Add(Vote(0, [], Yes), Some(4.0));
    after := t.View();
  }

  /** Subtracting more than a counter holds leaves the tally untouched. */
  method SubUnderflowInPlace() returns (r: Result<()>, after: Counts)
    ensures r == Err(Underflow) && after == Tally4(1.0, 1.0, 1.0, 1.0)
  {
    var t := new Tally(Some(1.0), Some(1.0), Some(1.0), Some(1.0));
    r := t.Sub(Vote(0, [], No), Some(2.0));
    after := t.View();
  }
}
