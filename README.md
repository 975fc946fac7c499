# Group module core: decision policy and weighted tally

A Dafny model of the decision-making core of the group module of a
governance ledger. A group of members with decimal voting weights votes on
proposals. Each proposal keeps a **tally**, four exact decimal counters (yes,
no, abstain, veto), updated in place as votes are cast or withdrawn. A
**threshold decision policy** maps the tally, the group's total power and the
elapsed voting time to one of three outcomes: accept (`{allow, final}`),
reject for good (`{!allow, final}`) or pending (`{!allow, !final}`). The model
also covers the structural validators of groups, members and group accounts,
and the natural storage key of a vote.

The behaviour modelled is the one the group module's table-driven tests
(x/group/types_test.go) assert; the implementation file itself is not part
of this model. Where the tests leave a choice open, the decisions below say
what the model does.

Modules:

- `Base`: `Option`, `Result` (usable with `:-`), the error kinds, `byte`,
  `uint64`, decimals and the address predicate.
- `Votes`: vote choices, votes, and the big-endian natural key with its
  decoder.
- `Tallies`: the tally value `Counts` with its pure operations, and the
  class `Tally` whose `Add`/`Sub` methods change the counters in place.
- `Groups`: group and member validators.
- `Policies`: the threshold policy (`Allow`, `ValidateBasic`, `Validate`)
  and the policy variant type.
- `GroupAccounts`: group accounts and their constructor.
- `Scenarios`: the test tables, stated as facts about the model.

Representation decisions:

- A decimal string field is `Dec = Option<real>`. `None` is the empty
  ("unset") or unparsable string. `Some(v)` is its exact value. Arithmetic is
  exact.
- Durations, both the policy timeout and the elapsed voting time, are
  integer nanoseconds. An unset timeout is 0. The maximum timeout is 10,000
  Julian years, 315,576,000,000 seconds, inclusive.
- Address validity is `ValidAddress`: exactly 20 bytes. The test fixtures
  agree with this: `valid--admin-address` is 20 bytes long, while
  `invalid-member-address`, `any-invalid-group-address` and the empty string
  are not.
- Tally counters are read through `GetCount`. An unset counter fails with
  `InvalidInput` and a negative one with `InvalidState`.
- `Allow` reads only what each step needs: the timeout, then the threshold
  and the yes counter, then the total power and all four counters. So a tally
  whose no/abstain/veto counters are unset still gets a definite answer when
  the proposal has expired or yes reaches the threshold
  (x/group/types_test.go:28 and :68).
- `Add`/`Sub` require the weight to be a positive decimal, as a member's
  weight must be. They fail with `InvalidInput` otherwise. The tests only use
  positive weights. This choice is what makes `Add` unable to produce a
  negative counter.
- Check order in `Add`: weight, then tally validity, then choice. `Sub`
  checks the same, then underflow.

## Model

| member | source | states |
|---|---|---|
| `Tallies.GetCount` | x/group/types_test.go:522-557 | a counter read succeeds iff it is set and not negative; unset gives InvalidInput, negative InvalidState |
| `Tallies.Counts.ValidateBasic` | x/group/types_test.go:509-569 | succeeds iff all four counters are set and non-negative; an unset or negative yes counter is the reported error |
| `Tallies.Counts.TotalCounts` | x/group/types_test.go:571-634 | succeeds iff the tally is valid, with the exact sum of the four counters (at least each counter); otherwise fails with the same error as ValidateBasic |
| `Tallies.Counts.Plus` | x/group/types_test.go:636-763 | succeeds iff the weight is positive, the tally valid and the choice a vote; the result is valid, the selected counter grows by exactly the weight, the other three are unchanged; on a valid tally and weight the only error is InvalidChoice |
| `Tallies.Counts.Minus` | x/group/types_test.go:765-907 | succeeds iff additionally the selected counter holds at least the weight; the result is valid (never negative), the selected counter drops by exactly the weight, the others are unchanged; the errors are Underflow or InvalidChoice |
| `Tallies.MinusUndoesPlus` | x/group/types_test.go:636-907 | withdrawing a vote just cast restores the original tally |
| `Tallies.PlusUndoesMinus` | x/group/types_test.go:636-907 | casting again a vote just withdrawn restores the original tally |
| `Tallies.TotalAfterPlus` | x/group/types_test.go:636-763 | casting a vote raises the total by exactly its weight |
| `Tallies.TotalAfterMinus` | x/group/types_test.go:765-907 | withdrawing a vote lowers the total by exactly its weight |
| `Tallies.Tally.constructor` | x/group/types_test.go:645-650 | the new tally holds the four given counters |
| `Tallies.Tally.Add` | x/group/types_test.go:749-760 | in place: on success the counters become `Plus` of the old counters; on failure the same error is returned and no counter changes |
| `Tallies.Tally.Sub` | x/group/types_test.go:893-904 | in place: on success the counters become `Minus` of the old counters and stay valid; on failure (underflow, unspecified choice, invalid tally) nothing changes |
| `Votes.FromBigEndian` | x/group/types_test.go:200-206 | a decoded k-byte big-endian value is below 256^k |
| `Votes.FromBigEndianOfBigEndian` | x/group/types_test.go:200-206 | decoding the width-byte big-endian encoding of n < 256^width gives n back |
| `Votes.BigEndianOfFromBigEndian` | x/group/types_test.go:200-206 | re-encoding a decoded byte string at its own width gives the string back |
| `Votes.Pow256Of8` | x/group/types_test.go:200-206 | eight bytes hold exactly the 64-bit proposal ids |
| `Votes.NaturalKey` | x/group/types_test.go:200-206 | the key is 8 + len(voter) bytes, its first 8 bytes decode to the proposal id, its remainder is the voter |
| `Votes.ParseNaturalKey` | x/group/types_test.go:200-206 | splits any key of at least 8 bytes into (id, voter) whose encoding is that key; fails iff shorter |
| `Votes.NaturalKeyRoundTrip` | x/group/types_test.go:200-206 | parsing the key of a vote gives back its proposal id and voter |
| `Votes.NaturalKeyInjective` | x/group/types_test.go:200-206 | two votes share a key iff they have the same proposal id and voter |
| `Votes.LexLessExtend` | x/group/types_test.go:200-206 | byte order between equal-length prefixes decides the order of any extensions |
| `Votes.LexLessCommonPrefix` | x/group/types_test.go:200-206 | a common prefix does not change byte order |
| `Votes.BigEndianMonotone` | x/group/types_test.go:200-206 | big-endian encoding turns numeric order into byte order |
| `Votes.NaturalKeyOrdersByProposal` | x/group/types_test.go:200-206 | keys sort votes by proposal id first |
| `Votes.NaturalKeyOrdersByVoter` | x/group/types_test.go:200-206 | within one proposal, keys sort votes by voter bytes |
| `Groups.GroupInfo.ValidateBasic` | x/group/types_test.go:208-280 | valid iff id and version are nonzero, the admin address is well formed and the total weight is set and non-negative |
| `Groups.GroupMember.ValidateBasic` | x/group/types_test.go:282-349 | valid iff group id is nonzero, the member address is well formed and the weight is set and strictly positive |
| `Groups.MemberVoteIsCountable` | x/group/types_test.go:282-349 | the weight of a valid member is always accepted by `Plus` on a valid tally, and `Minus` undoes it |
| `Policies.MaxTimeoutValue` | x/group/types_test.go:143 | the maximum timeout is 10000 × 365.25 × 86400 = 315,576,000,000 seconds |
| `Policies.ThresholdDecisionPolicy.Allow` | x/group/types_test.go:14-115 | the result is one of accept / final reject / pending; accept only before the timeout with yes ≥ threshold; errors exactly when an input a step needs is unset (threshold, yes) or, below the threshold, when power is unset or the tally invalid |
| `Policies.ThresholdDecisionPolicy.ValidateBasic` | x/group/types_test.go:142-198 | valid iff the threshold is set and positive and 0 < timeout ≤ 10,000 years; errors are InvalidPolicy |
| `Policies.ThresholdDecisionPolicy.Validate` | x/group/types_test.go:117-140 | succeeds iff threshold ≤ the group's total weight (both set); otherwise ThresholdTooHigh |
| `Policies.DecisionPolicy.ValidateBasic` | x/group/types_test.go:487-504 | a policy variant is valid iff the threshold policy inside it is |
| `Policies.AllowExpired` | x/group/types_test.go:63-82 | at or after the timeout the result is final reject, whatever the tally |
| `Policies.AllowAcceptsAtThreshold` | x/group/types_test.go:23-42 | before the timeout, accept iff yes ≥ threshold, whatever the other counters (even unset) |
| `Policies.AllowRejectsIffUnreachable` | x/group/types_test.go:43-62 | before the timeout and below the threshold: final reject iff yes + (power − total) < threshold, pending iff not |
| `Policies.AbstainAndVetoActLikeNo` | x/group/types_test.go:83-102 | a vote of a given weight has the same effect on `Allow` whether it is abstain, no or veto, and never creates an acceptance |
| `Policies.FinalDecisionIsStable` | x/group/types_test.go:14-115 | while the tally stays within the group's power, no further vote changes a final decision |
| `Policies.AllowTotalOnValidInput` | x/group/types_test.go:104-113 | a basically valid policy decides every valid tally with set power without error |
| `Policies.FreshProposalPendingIffValid` | x/group/types_test.go:117-140 | for valid policy and group, a proposal with no votes is pending before the timeout iff the policy fits the group, and final reject iff it does not |
| `GroupAccounts.GroupAccountInfo.ValidateBasic` | x/group/types_test.go:351-507 | valid iff address and admin are well formed, group id and version nonzero, and a policy is present and valid; the policy's own error is passed on |
| `GroupAccounts.NewGroupAccountInfo` | x/group/types_test.go:487-498 | never fails and stores every argument, the policy attached |
| `GroupAccounts.NewGroupAccountInfoValidIff` | x/group/types_test.go:485-506 | a freshly built account is valid iff its addresses, ids and policy are |
| `Scenarios.AllowScenarios` | x/group/types_test.go:23-102 | the eight decision cases of the policy table |
| `Scenarios.PolicyValidateScenarios` | x/group/types_test.go:122-136 | threshold 1 fits total weight 1, threshold 2 does not |
| `Scenarios.PolicyValidateBasicScenarios` | x/group/types_test.go:148-190 | the policy validation table |
| `Scenarios.NaturalKeyScenario` | x/group/types_test.go:200-206 | id 1 with voter ff fe has key 00×7 01 ff fe |
| `Scenarios.GroupInfoScenarios` | x/group/types_test.go:213-268 | the group validation table |
| `Scenarios.GroupMemberScenarios` | x/group/types_test.go:287-337 | the member validation table |
| `Scenarios.GroupAccountScenarios` | x/group/types_test.go:362-483 | the group account validation table |
| `Scenarios.TallyValidateBasicScenarios` | x/group/types_test.go:514-557 | the tally validation table |
| `Scenarios.TotalCountsScenarios` | x/group/types_test.go:577-621 | 1+1+1+1 = 4, and negative counters fail |
| `Scenarios.PlusScenarios` | x/group/types_test.go:644-747 | the add table: 1+4 = 5, 1+1.5 = 2.5 on each counter, failures on negative counters |
| `Scenarios.MinusScenarios` | x/group/types_test.go:773-891 | the subtract table: 1−0.5 = 0.5 on each counter, underflow for 2, unspecified choice refused |
| `Scenarios.AddYesInPlace` | x/group/types_test.go:644-659 | adding yes weight 4 in place to a tally of ones leaves 5, 1, 1, 1 |
| `Scenarios.SubUnderflowInPlace` | x/group/types_test.go:848-858 | an underflowing subtraction in place fails and leaves the tally unchanged |

## Left out

- Decimal parsing and canonical printing (the external decimal package). Decimals are exact `real` values, and a parse failure is `None`. Reals also include non-terminating fractions, which no decimal string denotes.
- Address format checking is reduced to a length test (`ValidAddress`, 20 bytes).
- Protobuf `Any` packing in `NewGroupAccountInfo` is left out; the policy is stored as a variant value. The proto duration's seconds/nanos fields and their conversion to a 64-bit nanosecond count are left out too; durations are unbounded integers of nanoseconds. In particular, the bound of a 64-bit nanosecond count (about 292 years), which a conversion would impose below the 10,000-year limit, is not modelled.
- Policy dispatch of `Allow` and `Validate` through the policy variant is left out. There is only one policy kind, and only `ValidateBasic` is dispatched, by `GroupAccountInfo.ValidateBasic`.
- `Policies.ThresholdDecisionPolicy.Allow`: the threshold is only required to parse, not to be positive; positivity is `ValidateBasic`'s check. The undecided weight `power − total` may be negative without an error.
- `Policies.FinalDecisionIsStable`: holds only while the tally's total stays within the group's power. Without that, a final reject can turn into an accept: with power 0 and threshold 1, an empty tally is rejected, and after a yes vote of 5 it is accepted.
- Which error is reported when several checks fail at once is fixed by the model's check order. The tests only assert that some error occurs.
- Storage, events, the proposal lifecycle and the test harness are not part of this model.
