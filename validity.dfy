/** The data-quality gate: a selection is usable when, for every requested
    variable, its present samples (counted over the whole array) divided by
    the length of its first dimension exceed 0.9. */
module Validity {
  import opened Outcomes
  import opened Datasets

  lemma SignOfProduct(x: real, t: real)
    requires t > 0.0
    ensures x > 0.0 <==> x * t > 0.0
  {
  }

  /** `valid / total > 0.9`, decided exactly on integers. */
  function AboveThreshold(valid: nat, total: nat): (b: bool)
    requires total > 0
    ensures b <==> (valid as real) / (total as real) > 0.9
  {
    var t := total as real;
    var ratio := (valid as real) / t;
    assert ratio * t == valid as real;
    SignOfProduct(ratio - 0.9, t);
    assert (ratio - 0.9) * t == valid as real - 0.9 * t;
    10 * valid > 9 * total
  }

  /** The gate for one variable of a selection: a missing variable and a
      zero-length leading dimension raise; otherwise the present samples,
      counted over the whole array, are divided by the leading length. */
  function CheckVariable(sel: Dataset, name: string): (r: Result<bool>)
    ensures r == Err(MissingVariable(name)) <==> name !in sel.vars
    ensures r == Err(ZeroDivision(name)) <==> name in sel.vars && LeadingLength(sel, name) == 0
    ensures r.Err? ==> r.error in {MissingVariable(name), ZeroDivision(name)}
    ensures r == Ok(true) <==>
              name in sel.vars && LeadingLength(sel, name) > 0 &&
              (VariableValidCount(sel.vars[name]) as real) / (LeadingLength(sel, name) as real) > 0.9
  {
    if name !in sel.vars then Err(MissingVariable(name))
    else if LeadingLength(sel, name) == 0 then Err(ZeroDivision(name))
    else Ok(AboveThreshold(VariableValidCount(sel.vars[name]), LeadingLength(sel, name)))
  }

  /** `_check_all_variables`: the variables are checked in order, the first
      one that raises decides the outcome, and otherwise the answer is whether
      every flag is true (so an empty list passes). */
  function AllVariablesValid(variables: seq<string>, sel: Dataset): (r: Result<bool>)
    ensures r == Ok(true) <==> forall t :: 0 <= t < |variables| ==> CheckVariable(sel, variables[t]) == Ok(true)
    ensures r.Err? <==> exists t :: 0 <= t < |variables| && CheckVariable(sel, variables[t]).Err?
    ensures r.Err? ==> r.error != NoCandidates
  {
    if variables == [] then Ok(true)
    else
      match CheckVariable(sel, variables[0])
      case Err(e) => Err(e)
      case Ok(first) =>
        match AllVariablesValid(variables[1..], sel)
        case Err(e) => Err(e)
        case Ok(rest) => Ok(first && rest)
  }

  /** The error reported is the one of the first variable that raises. */
  lemma {:induction false} FirstErrorWins(variables: seq<string>, sel: Dataset, t: nat)
    requires t < |variables| && CheckVariable(sel, variables[t]).Err?
    requires forall u :: 0 <= u < t ==> CheckVariable(sel, variables[u]).Ok?
    ensures AllVariablesValid(variables, sel) == CheckVariable(sel, variables[t])
  {
    if t > 0 {
      FirstErrorWins(variables[1..], sel, t - 1);
    }
  }

  /** A variable with every sample missing has ratio 0 and is rejected. */
  lemma AllMissingRejected(sel: Dataset, name: string)
    requires name in sel.vars && LeadingLength(sel, name) > 0 && AllMissing(sel.vars[name])
    ensures CheckVariable(sel, name) == Ok(false)
    ensures forall variables: seq<string> :: name in variables ==> AllVariablesValid(variables, sel) != Ok(true)
  {
  }

  /** The variable is in the dataset, none of its dimensions is empty, and
      none of its samples is missing. */
  predicate FullyPresent(d: Dataset, name: string) {
    && name in d.vars
    && d.vars[name].rest > 0
    && d.vars[name].leading != NonSpatial(0)
    && AllPresent(d.vars[name])
  }

  lemma AtLeastOnce(x: nat, y: nat)
    requires y >= 1
    ensures x * y >= x
  {
  }

  /** On a non-empty selection a fully present variable passes: its present
      samples number its first dimension's length times the sizes of its
      other dimensions, each at least 1, so the ratio is at least 1. */
  lemma FullyPresentPasses(sel: Dataset, name: string)
    requires WellFormed(sel) && |sel.lon| > 0 && |sel.lat| > 0 && FullyPresent(sel, name)
    ensures VariableValidCount(sel.vars[name]) >= LeadingLength(sel, name) > 0
    ensures CheckVariable(sel, name) == Ok(true)
  {
    var v := sel.vars[name];
    var total := LeadingLength(sel, name);
    var other := OtherSize(sel, name);
    assert |sel.lon| * |sel.lat| >= 1;
    assert other >= 1;
    assert total > 0;
    assert VariableValidCount(v) == total * other;
    AtLeastOnce(total, other);
  }
}
