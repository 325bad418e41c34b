/** The SIR model class of covsirphy/ode/sir.py: construction with its
    population check, the structure of the (tau-free) derivative and the
    column arithmetic that specialises a data set for the model. */
module SIRModel {
  import opened Wrappers

  /** A Python value handed to the constructor as the population. */
  datatype PyValue = PyInt(i: int) | PyBool(b: bool) | PyFloat(x: real) | PyStr(s: string)

  /** isinstance(v, int): bool is a subclass of int in Python. */
  predicate IsInt(v: PyValue)
  {
    v.PyInt? || v.PyBool?
  }

  /** The integer value of an int (True and False count as 1 and 0). */
  function IntValue(v: PyValue): int
    requires IsInt(v)
  {
    match v
    case PyInt(i) => i
    case PyBool(b) => if b then 1 else 0
  }

  datatype TypeError = TypeError(message: string)

  const PopulationNotInt := "@population must be an integer."

  /** A constructed SIR model: total population and the two non-dimensional
      parameters. */
  datatype SIR = SIR(population: int, rho: real, sigma: real)

  /** SIR.__init__: raises TypeError unless the population is an integer,
      otherwise stores the population and both parameters unchanged. */
  function NewSIR(population: PyValue, rho: real, sigma: real): (r: Result<SIR, TypeError>)
    ensures r.Failure? <==> !IsInt(population)
    ensures r.Failure? ==> r.error == TypeError(PopulationNotInt)
    ensures r.Success? ==> r.value.population == IntValue(population) && r.value.rho == rho && r.value.sigma == sigma
  {
    if !IsInt(population) then Failure(TypeError(PopulationNotInt))
    else Success(SIR(IntValue(population), rho, sigma))
  }

  /** The dimensional variables, in the order of VARIABLES. */
  datatype Variable = Susceptible | Infected | FatalOrRecovered

  const Variables: seq<Variable> := [Susceptible, Infected, FatalOrRecovered]

  function Abs(x: real): real
  {
    if x < 0.0 then -x else x
  }

  /** Python's round() on a float: to the nearest integer, ties to the even one. */
  function Round(x: real): (r: int)
    ensures x - 0.5 <= r as real <= x + 0.5
    ensures x >= 0.0 ==> r >= 0
    ensures x - x.Floor as real == 0.5 ==> r % 2 == 0
  {
    var f := x.Floor;
    var frac := x - f as real;
    if frac < 0.5 then f
    else if frac > 0.5 then f + 1
    else if f % 2 == 0 then f
    else f + 1
  }

  /** No integer is closer to x than Round(x). */
  lemma RoundIsNearest(x: real, k: int)
    ensures Abs(x - Round(x) as real) <= Abs(x - k as real)
  {
    var r := Round(x);
    var f := x.Floor;
    assert f as real <= x < f as real + 1.0;
    if k < f {
      assert k as real <= f as real - 1.0;
    } else if k > f + 1 {
      assert k as real >= f as real + 2.0;
    }
  }

  /** The structure of SIR.__call__: the susceptible change is the negated
      rounded infection term beta * s * i / n, the recovery change the rounded
      term sigma * i, and the infected change balances the two. The source
      reads an attribute beta that the constructor never sets; here it is a
      parameter. A population of 0 divides by zero. */
  function Derivative(m: SIR, beta: real, s: real, i: real): (r: Option<seq<int>>)
    ensures r.None? <==> m.population == 0
    ensures r.Some? ==> |r.value| == |Variables|
    ensures r.Some? ==> r.value[0] + r.value[1] + r.value[2] == 0
    ensures r.Some? && m.population > 0 && beta >= 0.0 && s >= 0.0 && i >= 0.0 ==> r.value[0] <= 0
    ensures r.Some? && m.sigma >= 0.0 && i >= 0.0 ==> r.value[2] >= 0
  {
    if m.population == 0 then None
    else
      var n := m.population as real;
      var dsdt := 0 - Round(beta * s * i / n);
      var drdt := Round(m.sigma * i);
      var didt := 0 - dsdt - drdt;
      Some([dsdt, didt, drdt])
  }

  /** A data frame: its columns by name, all of one length. */
  type Frame = map<string, seq<int>>

  predicate Rectangular(df: Frame)
  {
    forall a, b :: a in df && b in df ==> |df[a]| == |df[b]|
  }

  const ColS := "Susceptible"
  const ColC := "Confirmed"
  const ColF := "Fatal"
  const ColR := "Recovered"
  const ColFR := "Fatal or Recovered"
  const ColCI := "Infected"

  /** The two column assignments of SIR.specialize. A missing Confirmed,
      Fatal or Recovered column is a KeyError. */
  function Specialize(df: Frame, population: int): (r: Option<Frame>)
    requires Rectangular(df)
    ensures r.Some? <==> ColC in df && ColF in df && ColR in df
    ensures r.Some? ==> r.value.Keys == df.Keys + {ColS, ColFR} && Rectangular(r.value)
    ensures r.Some? ==> forall c :: c in df && c != ColS && c != ColFR ==> r.value[c] == df[c]
    ensures r.Some? ==>
      && |r.value[ColS]| == |df[ColC]|
      && forall k :: 0 <= k < |df[ColC]| ==> r.value[ColS][k] + df[ColC][k] == population
    ensures r.Some? ==>
      && |r.value[ColFR]| == |df[ColC]|
      && forall k :: 0 <= k < |df[ColC]| ==> r.value[ColFR][k] == df[ColF][k] + df[ColR][k]
  {
    if ColC !in df then None
    else
      var confirmed := df[ColC];
      var withS := df[ColS := seq(|confirmed|, k requires 0 <= k < |confirmed| => population - confirmed[k])];
      if ColF !in withS || ColR !in withS then None
      else
        var fatal := withS[ColF];
        var recovered := withS[ColR];
        Some(withS[ColFR := seq(|fatal|, k requires 0 <= k < |fatal| && k < |recovered| => fatal[k] + recovered[k])])
  }

  /** On records where Confirmed = Infected + Fatal + Recovered, the
      specialised frame splits the population exactly into the three model
      variables: S + CI + FR = population on every row. */
  lemma SpecializeSplitsPopulation(df: Frame, population: int, k: int)
    requires Rectangular(df)
    requires ColC in df && ColF in df && ColR in df && ColCI in df
    requires 0 <= k < |df[ColC]|
    requires df[ColC][k] == df[ColCI][k] + df[ColF][k] + df[ColR][k]
    ensures var r := Specialize(df, population).value;
      r[ColS][k] + r[ColCI][k] + r[ColFR][k] == population
  {
    var r := Specialize(df, population).value;
    assert r[ColCI] == df[ColCI];
  }
}
