/** The weighted tally of one proposal: four exact decimal counters, read
    only after they are checked, and updated in place as votes are cast or
    withdrawn. */
module Tallies {
  import opened Base
  import opened Votes

  /** Reads one counter: it must be set and must not be negative. */
  function GetCount(d: Dec): (r: Result<real>)
    ensures r.Ok? <==> d.Some? && d.value >= 0.0
    ensures r.Ok? ==> r.value == d.value
    ensures r.Err? ==> r.error == (if d.None? then InvalidInput else InvalidState)
  {
    var v :- ParseDec(d);
    if v < 0.0 then Err(InvalidState) else Ok(v)
  }

  predicate Settled(d: Dec) {
    d.Some? && d.value >= 0.0
  }

  /** The value of a tally: its yes, no, abstain and veto counters. */
  datatype Counts = Counts(yes: Dec, no: Dec, abstain: Dec, veto: Dec) {

    /** Every counter is set and none is negative. */
    predicate IsValid() {
      Settled(yes) && Settled(no) && Settled(abstain) && Settled(veto)
    }

    /** The counter a vote choice selects. */
    function Count(c: Choice): Dec
      requires c.IsVote()
    {
      match c
      case Yes => yes
      case No => no
      case Abstain => abstain
      case Veto => veto
    }

    /** This tally with the counter selected by `c` replaced by `d`. */
    function WithCount(c: Choice, d: Dec): (t: Counts)
      requires c.IsVote()
      ensures t.Count(c) == d
      ensures forall o: Choice :: o.IsVote() && o != c ==> t.Count(o) == Count(o)
    {
      match c
      case Yes => this.(yes := d)
      case No => this.(no := d)
      case Abstain => this.(abstain := d)
      case Veto => this.(veto := d)
    }

    /** Checks the counters in the order yes, no, abstain, veto and reports
        the first one that is unset or negative. */
    function ValidateBasic(): (r: Result<()>)
      ensures r.Ok? <==> IsValid()
      ensures !Settled(yes) ==> r == Err(GetCount(yes).error)
      ensures r.Err? ==> r.error in {InvalidInput, InvalidState}
    {
      var _ :- GetCount(yes);
      var _ :- GetCount(no);
      var _ :- GetCount(abstain);
      var _ :- GetCount(veto);
      Ok(())
    }

    /** The exact sum of the four counters; fails exactly as ValidateBasic does. */
    function TotalCounts(): (r: Result<real>)
      ensures r.Ok? <==> IsValid()
      ensures r.Ok? ==> r.value == yes.value + no.value + abstain.value + veto.value
      ensures r.Ok? ==> r.value >= yes.value && r.value >= no.value
                        && r.value >= abstain.value && r.value >= veto.value
      ensures r.Err? ==> ValidateBasic() == Err(r.error)
    {
      var y :- GetCount(yes);
      var n :- GetCount(no);
      var a :- GetCount(abstain);
      var v :- GetCount(veto);
      Ok(y + n + a + v)
    }

    /** The tally after a vote of the given weight is cast. */
    function Plus(c: Choice, weight: Dec): (r: Result<Counts>)
      ensures r.Ok? <==> weight.Some? && weight.value > 0.0 && IsValid() && c.IsVote()
      ensures r.Ok? ==> r.value.IsValid()
      ensures r.Ok? ==> r.value.Count(c) == Some(Count(c).value + weight.value)
      ensures r.Ok? ==> forall o: Choice :: o.IsVote() && o != c ==> r.value.Count(o) == Count(o)
      ensures r.Err? && IsValid() && weight.Some? && weight.value > 0.0 ==> r.error == InvalidChoice
    {
      var w :- ParsePositive(weight);
      var _ :- ValidateBasic();
      if !c.IsVote() then Err(InvalidChoice)
      else Ok(WithCount(c, Some(Count(c).value + w)))
    }

    /** The tally after a vote of the given weight is withdrawn; refused
        when the selected counter would become negative. */
    function Minus(c: Choice, weight: Dec): (r: Result<Counts>)
      ensures r.Ok? <==> weight.Some? && weight.value > 0.0 && IsValid() && c.IsVote()
                         && Count(c).value >= weight.value
      ensures r.Ok? ==> r.value.IsValid()
      ensures r.Ok? ==> r.value.Count(c) == Some(Count(c).value - weight.value)
      ensures r.Ok? ==> forall o: Choice :: o.IsVote() && o != c ==> r.value.Count(o) == Count(o)
      ensures r.Err? && IsValid() && weight.Some? && weight.value > 0.0 ==>
                r.error == (if c.IsVote() then Underflow else InvalidChoice)
    {
      var w :- ParsePositive(weight);
      var _ :- ValidateBasic();
      if !c.IsVote() then Err(InvalidChoice)
      else if Count(c).value - w < 0.0 then Err(Underflow)
      else Ok(WithCount(c, Some(Count(c).value - w)))
    }
  }

  /** The tally of a proposal that has just opened. */
  const NoVotes := Counts(Some(0.0), Some(0.0), Some(0.0), Some(0.0))

  /** Withdrawing a vote just cast restores the tally. */
  lemma MinusUndoesPlus(t: Counts, c: Choice, weight: Dec)
    requires t.Plus(c, weight).Ok?
    ensures t.Plus(c, weight).value.Minus(c, weight) == Ok(t)
  {
  }

  /** Casting again a vote just withdrawn restores the tally. */
  lemma PlusUndoesMinus(t: Counts, c: Choice, weight: Dec)
    requires t.Minus(c, weight).Ok?
    ensures t.Minus(c, weight).value.Plus(c, weight) == Ok(t)
  {
  }

  /** Casting a vote raises the total by exactly its weight. */
  lemma TotalAfterPlus(t: Counts, c: Choice, weight: Dec)
    requires t.Plus(c, weight).Ok?
    ensures t.Plus(c, weight).value.TotalCounts() == Ok(t.TotalCounts().value + weight.value)
  {
  }

  /** Withdrawing a vote lowers the total by exactly its weight. */
  lemma TotalAfterMinus(t: Counts, c: Choice, weight: Dec)
    requires t.Minus(c, weight).Ok?
    ensures t.Minus(c, weight).value.TotalCounts() == Ok(t.TotalCounts().value - weight.value)
  {
  }

  /** A tally held in place, as the proposal keeps it while votes arrive. */
  class Tally {
    var yesCount: Dec
    var noCount: Dec
    var abstainCount: Dec
    var vetoCount: Dec

    constructor (yes: Dec, no: Dec, abstain: Dec, veto: Dec)
      ensures View() == Counts(yes, no, abstain, veto)
    {
      yesCount, noCount, abstainCount, vetoCount := yes, no, abstain, veto;
    }

    /** The current value of the tally. */
    function View(): Counts
      reads this
    {
      Counts(yesCount, noCount, abstainCount, vetoCount)
    }

    /** Adds `weight` to the counter selected by the vote's choice. On any
        failure the tally is left exactly as it was. */
    method Add(vote: Vote, weight: Dec) returns (r: Result<()>)
      modifies this
      ensures old(View()).Plus(vote.choice, weight).Ok? ==>
                r == Ok(()) && View() == old(View()).Plus(vote.choice, weight).value
      ensures old(View()).Plus(vote.choice, weight).Err? ==>
                r == Err(old(View()).Plus(vote.choice, weight).error) && View() == old(View())
    {
      if weight.None? || weight.value <= 0.0 {
        return Err(InvalidInput);
      }
      var valid := View().ValidateBasic();
      if valid.Err? {
        return Err(valid.error);
      }
      match vote.choice {
        case Unspecified =>
          return Err(InvalidChoice);
        case Yes =>
          yesCount := Some(yesCount.value + weight.value);
        case No =>
          noCount := Some(noCount.value + weight.value);
        case Abstain =>
          abstainCount := Some(abstainCount.value + weight.value);
        case Veto =>
          vetoCount := Some(vetoCount.value + weight.value);
      }
      return Ok(());
    }

    /** Subtracts `weight` from the counter selected by the vote's choice,
        refusing to make it negative. On any failure the tally is left
        exactly as it was. */
    method Sub(vote: Vote, weight: Dec) returns (r: Result<()>)
      modifies this
      ensures old(View()).Minus(vote.choice, weight).Ok? ==>
                r == Ok(()) && View() == old(View()).Minus(vote.choice, weight).value
      ensures old(View()).Minus(vote.choice, weight).Err? ==>
                r == Err(old(View()).Minus(vote.choice, weight).error) && View() == old(View())
      ensures r.Ok? ==> View().IsValid()
    {
      if weight.None? || weight.value <= 0.0 {
        return Err(InvalidInput);
      }
      var valid := View().ValidateBasic();
      if valid.Err? {
        return Err(valid.error);
      }
      var current: real;
      match vote.choice {
        case Unspecified =>
          return Err(InvalidChoice);
        case Yes =>
          current := yesCount.value;
        case No =>
          current := noCount.value;
        case Abstain =>
          current := abstainCount.value;
        case Veto =>
          current := vetoCount.value;
      }
      var next := current - weight.value;
      if next < 0.0 {
        return Err(Underflow);
      }
      match vote.choice {
        case Yes =>
          yesCount := Some(next);
        case No =>
          noCount := Some(next);
        case Abstain =>
          abstainCount := Some(next);
        case Veto =>
          vetoCount := Some(next);
      }
      return Ok(());
    }
  }
}
