/**
 * Candidate selection of the prediction script: draw `population` decoder
 * vectors, measure each one's error against the requested span, and keep the
 * first vector with the smallest error.
 */
module Prediction {
  import opened Wrappers
  import PyList

  /** The population used when the argument is missing or 0. */
  const DefaultPopulation: int := 10

  /**
   * `population = args.population if args.population else 10`: the test is
   * truthiness, so both a missing argument and 0 give the default.
   */
  function Population(arg: Option<int>): (p: int)
    ensures p != 0
    ensures arg == None || arg == Some(0) ==> p == DefaultPopulation
    ensures arg.Some? && arg.value != 0 ==> p == arg.value
  {
    match arg
    case Some(value) => if value != 0 then value else DefaultPopulation
    case None => DefaultPopulation
  }

  /** The candidate vectors: the i-th call of the decoder is `draw(i)`; `range` of a negative count is empty. */
  function Candidates(population: int, draw: nat -> seq<real>): (r: seq<seq<real>>)
    ensures |r| == if population < 0 then 0 else population
    ensures forall i :: 0 <= i < |r| ==> r[i] == draw(i)
  {
    var count := if population < 0 then 0 else population;
    seq(count, i requires 0 <= i < count => draw(i))
  }

  function Abs(x: real): real
  {
    if x < 0.0 then -x else x
  }

  /** `errors = [abs(output.compute_r1n() - span) for output in outputs]`. */
  function Errors(outputs: seq<seq<real>>, r1n: seq<real> -> real, span: real): (e: seq<real>)
    ensures |e| == |outputs|
    ensures forall i :: 0 <= i < |e| ==> e[i] >= 0.0 && (e[i] == r1n(outputs[i]) - span || e[i] == span - r1n(outputs[i]))
  {
    seq(|outputs|, i requires 0 <= i < |outputs| => Abs(r1n(outputs[i]) - span))
  }

  /** `np.min` of a non-empty list: an element no other element is below. */
  function Min(s: seq<real>): (m: real)
    requires s != []
    ensures m in s
    ensures forall j :: 0 <= j < |s| ==> m <= s[j]
  {
    if |s| == 1 then s[0]
    else
      var rest := Min(s[1..]);
      if s[0] <= rest then s[0] else rest
  }

  /**
   * `errors.index(np.min(errors))`: the first position of a smallest error.
   * `np.min` of an empty list raises.
   */
  function SelectIndex(errors: seq<real>): (r: Result<nat>)
    ensures r.Err? <==> errors == []
    ensures r.Err? ==> r.error == EmptyReduction
    ensures r.Ok? ==> && r.value < |errors|
                      && (forall j :: 0 <= j < |errors| ==> errors[r.value] <= errors[j])
                      && (forall j :: 0 <= j < r.value ==> errors[j] > errors[r.value])
  {
    if errors == [] then Err(EmptyReduction)
    else Ok(PyList.IndexOf(errors, Min(errors)))
  }

  /** The chosen candidate and its position in the population. */
  datatype Selection = Selection(index: nat, output: seq<real>)

  /**
   * The selection of the prediction script: the population rule, the
   * candidate list, the error list and the first smallest error. The decoder's
   * sampling is the parameter `draw` and `compute_r1n` the parameter `r1n`.
   */
  function Select(arg: Option<int>, span: real, draw: nat -> seq<real>, r1n: seq<real> -> real): (r: Result<Selection>)
    ensures r.Err? <==> Population(arg) < 0
    ensures r.Ok? ==> && r.value.index < Population(arg)
                      && r.value.output == draw(r.value.index)
  {
    var outputs := Candidates(Population(arg), draw);
    match SelectIndex(Errors(outputs, r1n, span))
    case Ok(k) => Ok(Selection(k, outputs[k]))
    case Err(e) => Err(e)
  }

  /**
   * The selected candidate's error is no larger than any other candidate's,
   * and every earlier candidate's error is strictly larger (ties go to the
   * lowest index).
   */
  lemma SelectIsFirstBest(arg: Option<int>, span: real, draw: nat -> seq<real>, r1n: seq<real> -> real)
    requires Select(arg, span, draw, r1n).Ok?
    ensures var k := Select(arg, span, draw, r1n).value.index;
      && (forall j :: 0 <= j < Population(arg) ==> Abs(r1n(draw(k)) - span) <= Abs(r1n(draw(j)) - span))
      && (forall j :: 0 <= j < k ==> Abs(r1n(draw(j)) - span) > Abs(r1n(draw(k)) - span))
  {
    var outputs := Candidates(Population(arg), draw);
    var errors := Errors(outputs, r1n, span);
    var k := Select(arg, span, draw, r1n).value.index;
    forall j | 0 <= j < |errors|
      ensures errors[j] == Abs(r1n(draw(j)) - span)
    {
    }
  }

  /** With a positive population, exactly that many candidates are drawn and measured. */
  lemma PopulationSize(arg: Option<int>, span: real, draw: nat -> seq<real>, r1n: seq<real> -> real)
    requires Population(arg) > 0
    ensures |Candidates(Population(arg), draw)| == Population(arg)
    ensures |Errors(Candidates(Population(arg), draw), r1n, span)| == Population(arg)
    ensures Select(arg, span, draw, r1n).Ok?
  {
  }

  /** The errors [0.5, 0.1, 0.3] select the candidate at index 1. */
  lemma SelectExample()
    ensures SelectIndex([0.5, 0.1, 0.3]) == Ok(1)
  {
    assert Min([0.5, 0.1, 0.3]) == 0.1;
  }
}
