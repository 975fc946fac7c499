/** The threshold decision policy: a proposal is accepted once its yes weight
    reaches a fixed threshold before a timeout, and is rejected for good once
    the timeout has passed or the threshold has become unreachable. */
module Policies {
  import opened Base
  import opened Votes
  import opened Tallies
  import opened Groups

  /** `allow`: execute the proposal now; `final`: no later vote can change
      the outcome. */
  datatype DecisionPolicyResult = DecisionPolicyResult(allow: bool, final: bool)

  const Accepted := DecisionPolicyResult(true, true)
  const Rejected := DecisionPolicyResult(false, true)
  const Pending := DecisionPolicyResult(false, false)

  const NANOS_PER_SECOND: int := 1_000_000_000

  /** 10,000 Julian years of 365.25 days, in seconds. */
  const MAX_TIMEOUT_SECONDS: int := 10_000 * 36525 * 24 * 60 * 60 / 100

  /** The longest admissible timeout, in nanoseconds. */
  const MAX_TIMEOUT: int := MAX_TIMEOUT_SECONDS * NANOS_PER_SECOND

  lemma MaxTimeoutValue()
    ensures MAX_TIMEOUT_SECONDS == 315_576_000_000
  {
  }

  /** A threshold policy; the timeout is in nanoseconds, 0 when unset. */
  datatype ThresholdDecisionPolicy = ThresholdDecisionPolicy(threshold: Dec, timeout: int)
  {
    /** Decides a proposal from its tally, the group's total voting power
        and the time voting has been open. The checks run in a fixed order:
        expiry (inclusive), then acceptance, then reachability of the
        threshold; a counter is read only when a check needs it. */
    function Allow(tally: Counts, totalPower: Dec, elapsed: int): (r: Result<DecisionPolicyResult>)
      ensures r.Ok? ==> r.value in {Accepted, Rejected, Pending}
      ensures r.Ok? && r.value.allow ==>
                elapsed < timeout && Settled(tally.yes)
                && threshold.Some? && tally.yes.value >= threshold.value
      ensures r.Ok? <==> elapsed >= timeout
                         || (threshold.Some? && Settled(tally.yes)
                             && (tally.yes.value >= threshold.value
                                 || (totalPower.Some? && tally.IsValid())))
    {
      if timeout <= elapsed then Ok(Rejected)
      else
        var thr :- ParseDec(threshold);
        var yes :- GetCount(tally.yes);
        if yes >= thr then Ok(Accepted)
        else
          var power :- ParseDec(totalPower);
          var sum :- tally.TotalCounts();
          var undecided := power - sum;
          if yes + undecided < thr then Ok(Rejected) else Ok(Pending)
    }

    /** The threshold must be set and positive; the timeout must be positive
        and at most 10,000 years. */
    function ValidateBasic(): (r: Result<()>)
      ensures r.Ok? <==> threshold.Some? && threshold.value > 0.0 && 0 < timeout <= MAX_TIMEOUT
      ensures r.Err? ==> r.error == InvalidPolicy
    {
      if threshold.None? || threshold.value <= 0.0 then Err(InvalidPolicy)
      else if timeout <= 0 || timeout > MAX_TIMEOUT then Err(InvalidPolicy)
      else Ok(())
    }

    /** The policy fits a group only when its threshold does not exceed the
        group's total weight. */
    function Validate(g: GroupInfo): (r: Result<()>)
      ensures r.Ok? <==> threshold.Some? && g.totalWeight.Some?
                         && threshold.value <= g.totalWeight.value
      ensures r.Err? && threshold.Some? && g.totalWeight.Some? ==> r.error == ThresholdTooHigh
    {
      var thr :- ParseDec(threshold);
      var total :- ParseDec(g.totalWeight);
      if thr > total then Err(ThresholdTooHigh) else Ok(())
    }
  }

  /** The kinds of decision policy a group account can hold. */
  datatype DecisionPolicy = Threshold(policy: ThresholdDecisionPolicy)
  {
    function ValidateBasic(): (r: Result<()>)
      ensures r.Ok? <==> policy.threshold.Some? && policy.threshold.value > 0.0
                         && 0 < policy.timeout <= MAX_TIMEOUT
    {
      match this
      case Threshold(p) => p.ValidateBasic()
    }
  }

  // ----- properties of Allow -----

  /** Once the timeout is reached (boundary included) the proposal is
      rejected for good, whatever the tally says. */
  lemma AllowExpired(p: ThresholdDecisionPolicy, t: Counts, power: Dec, elapsed: int)
    requires elapsed >= p.timeout
    ensures p.Allow(t, power, elapsed) == Ok(Rejected)
  {
  }

  /** Before the timeout, a yes weight at or above the threshold accepts,
      whatever the other counters hold (even unset). */
  lemma AllowAcceptsAtThreshold(p: ThresholdDecisionPolicy, t: Counts, power: Dec, elapsed: int)
    requires elapsed < p.timeout && p.threshold.Some? && Settled(t.yes)
    ensures p.Allow(t, power, elapsed) == Ok(Accepted) <==> t.yes.value >= p.threshold.value
  {
  }

  /** Before the timeout and below the threshold, the proposal is rejected
      for good exactly when even every undecided weight voting yes could not
      reach the threshold, and pending otherwise. */
  lemma AllowRejectsIffUnreachable(p: ThresholdDecisionPolicy, t: Counts, power: Dec, elapsed: int)
    requires elapsed < p.timeout && p.threshold.Some? && t.IsValid() && power.Some?
    requires t.yes.value < p.threshold.value
    ensures var best := t.yes.value + (power.value - t.TotalCounts().value);
            (p.Allow(t, power, elapsed) == Ok(Rejected) <==> best < p.threshold.value)
            && (p.Allow(t, power, elapsed) == Ok(Pending) <==> best >= p.threshold.value)
  {
  }

  /** Abstain and veto weight never counts toward acceptance: it consumes
      undecided weight exactly as no weight does. */
  lemma AbstainAndVetoActLikeNo(p: ThresholdDecisionPolicy, t: Counts, power: Dec, elapsed: int, weight: Dec)
    requires t.IsValid() && weight.Some? && weight.value > 0.0
    ensures p.Allow(t.Plus(Abstain, weight).value, power, elapsed)
            == p.Allow(t.Plus(No, weight).value, power, elapsed)
            == p.Allow(t.Plus(Veto, weight).value, power, elapsed)
    ensures p.Allow(t.Plus(No, weight).value, power, elapsed).Ok? ==>
              !p.Allow(t.Plus(No, weight).value, power, elapsed).value.allow
              || p.Allow(t, power, elapsed) == Ok(Accepted)
  {
  }

  /** A final decision stays final: casting any further vote, as long as the
      tally does not exceed the group's power, leaves the decision unchanged. */
  lemma FinalDecisionIsStable(p: ThresholdDecisionPolicy, t: Counts, power: Dec, elapsed: int,
                              c: Choice, weight: Dec)
    requires p.Allow(t, power, elapsed).Ok? && p.Allow(t, power, elapsed).value.final
    requires t.Plus(c, weight).Ok?
    requires power.Some? && t.Plus(c, weight).value.TotalCounts().value <= power.value
    ensures p.Allow(t.Plus(c, weight).value, power, elapsed) == p.Allow(t, power, elapsed)
  {
  }

  /** A policy that passes ValidateBasic decides every valid tally without error. */
  lemma AllowTotalOnValidInput(p: ThresholdDecisionPolicy, t: Counts, power: Dec, elapsed: int)
    requires p.ValidateBasic().Ok? && t.IsValid() && power.Some?
    ensures p.Allow(t, power, elapsed).Ok?
  {
  }

  /** For a well-formed policy and group, a proposal with no votes yet is
      pending before its timeout exactly when the policy fits the group, and
      rejected at once otherwise. */
  lemma FreshProposalPendingIffValid(p: ThresholdDecisionPolicy, g: GroupInfo, elapsed: int)
    requires p.ValidateBasic().Ok? && g.ValidateBasic().Ok? && elapsed < p.timeout
    ensures p.Allow(NoVotes, g.totalWeight, elapsed) == Ok(Pending) <==> p.Validate(g).Ok?
    ensures p.Allow(NoVotes, g.totalWeight, elapsed) == Ok(Rejected) <==> p.Validate(g).Err?
  {
  }
}
