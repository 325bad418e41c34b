/** ChangeFinder._read_population_data (covsirphy/analysis/sr_change.py):
    the total population in force on each date of the series. Dates are day
    ordinals; the change dictionary maps the first date of a new population
    value to that value. */
module PopulationData {
  import opened Wrappers

  /** The population in force at position i of `dates`: the value of the most
      recent date at or before i (in list order) that is a key of `changes`,
      or the initial population when there is none. i == -1 stands for
      "before the first date". */
  function PopulationAt(dates: seq<int>, population: int, changes: map<int, int>, i: int): int
    requires -1 <= i < |dates|
    decreases i + 1
  {
    if i < 0 then population
    else if dates[i] in changes then changes[dates[i]]
    else PopulationAt(dates, population, changes, i - 1)
  }

  /** Position i holds the last occurrence of its date among the first n dates. */
  predicate LastBefore(dates: seq<int>, i: int, n: int)
    requires 0 <= i < n <= |dates|
  {
    forall m :: i < m < n ==> dates[m] != dates[i]
  }

  /** j is the most recent change position at or before i. */
  predicate MostRecentChange(dates: seq<int>, changes: map<int, int>, j: int, i: int)
    requires 0 <= j <= i < |dates|
  {
    dates[j] in changes && forall k :: j < k <= i ==> dates[k] !in changes
  }

  /** The population at i is the value of the most recent change at or before i. */
  lemma {:induction false} PopulationAtMostRecent(dates: seq<int>, population: int, changes: map<int, int>, j: int, i: int)
    requires 0 <= j <= i < |dates|
    requires MostRecentChange(dates, changes, j, i)
    ensures PopulationAt(dates, population, changes, i) == changes[dates[j]]
    decreases i
  {
    if j < i {
      PopulationAtMostRecent(dates, population, changes, j, i - 1);
    }
  }

  /** With no change at or before i the initial population is in force. */
  lemma {:induction false} PopulationAtNoChange(dates: seq<int>, population: int, changes: map<int, int>, i: int)
    requires -1 <= i < |dates|
    requires forall k :: 0 <= k <= i ==> dates[k] !in changes
    ensures PopulationAt(dates, population, changes, i) == population
    decreases i + 1
  {
    if i >= 0 {
      PopulationAtNoChange(dates, population, changes, i - 1);
    }
  }

  /** The value in force is always either the initial population or the value
      of a change that occurs at or before i. */
  lemma {:induction false} PopulationAtSource(dates: seq<int>, population: int, changes: map<int, int>, i: int)
    requires -1 <= i < |dates|
    ensures var p := PopulationAt(dates, population, changes, i);
      p == population || exists k :: 0 <= k <= i && dates[k] in changes && p == changes[dates[k]]
    decreases i + 1
  {
    if i >= 0 && dates[i] !in changes {
      PopulationAtSource(dates, population, changes, i - 1);
    }
  }

  /** The loop of _read_population_data: walks the dates in order, switching
      the current population whenever a date is a key of the change
      dictionary (a missing dictionary is an empty one), and records the
      current population for every date. A date listed twice keeps the value
      of its last occurrence. */
  method ReadPopulationData(dates: seq<int>, population: int, changeDict: Option<map<int, int>>)
    returns (popDict: map<int, int>)
    ensures forall d :: d in popDict <==> d in dates
    ensures var changes := if changeDict.Some? then changeDict.value else map[];
      forall i :: 0 <= i < |dates| && LastBefore(dates, i, |dates|) ==>
        dates[i] in popDict && popDict[dates[i]] == PopulationAt(dates, population, changes, i)
  {
    var changes := if changeDict.Some? then changeDict.value else map[];
    var populationNow := population;
    popDict := map[];
    var n := 0;
    while n < |dates|
      invariant 0 <= n <= |dates|
      invariant LoopInvariant(dates, population, changes, popDict, populationNow, n)
    {
      var date := dates[n];
      if date in changes {
        populationNow := changes[date];
      }
      RecordStep(dates, population, changes, popDict, n, populationNow);
      popDict := popDict[date := populationNow];
      n := n + 1;
    }
    LoopExit(dates, population, changes, popDict, populationNow);
  }

  /** What the loop of ReadPopulationData keeps after n dates: the current
      population is the one in force at the last date seen, the map's keys are
      the dates seen, and each recorded value is the population in force at
      the last occurrence of its date. */
  ghost predicate LoopInvariant(dates: seq<int>, population: int, changes: map<int, int>,
                                popDict: map<int, int>, populationNow: int, n: int)
    requires 0 <= n <= |dates|
  {
    && populationNow == PopulationAt(dates, population, changes, n - 1)
    && (forall d :: d in popDict <==> d in dates[..n])
    && (forall i :: 0 <= i < n ==> Recorded(dates, population, changes, popDict, i, n))
  }

  /** If position i holds the last occurrence of its date among the first n,
      the map records the population in force at i for that date. */
  ghost predicate Recorded(dates: seq<int>, population: int, changes: map<int, int>,
                           popDict: map<int, int>, i: int, n: int)
    requires 0 <= i < n <= |dates|
  {
    LastBefore(dates, i, n) ==>
      dates[i] in popDict && popDict[dates[i]] == PopulationAt(dates, population, changes, i)
  }

  /** One turn of the loop of ReadPopulationData keeps its invariant. */
  lemma RecordStep(dates: seq<int>, population: int, changes: map<int, int>,
                   popDict: map<int, int>, n: int, populationNow: int)
    requires 0 <= n < |dates|
    requires LoopInvariant(dates, population, changes, popDict, PopulationAt(dates, population, changes, n - 1), n)
    requires populationNow == PopulationAt(dates, population, changes, n)
    ensures LoopInvariant(dates, population, changes, popDict[dates[n] := populationNow], populationNow, n + 1)
  {
    assert dates[..n + 1] == dates[..n] + [dates[n]];
    RecordedAfterStep(dates, population, changes, popDict, popDict[dates[n] := populationNow], n, n + 1);
  }

  lemma RecordedAfterStep(dates: seq<int>, population: int, changes: map<int, int>,
                          popDict: map<int, int>, next: map<int, int>, n: int, m: int)
    requires 0 <= n < |dates| && m == n + 1
    requires forall i :: 0 <= i < n ==> Recorded(dates, population, changes, popDict, i, n)
    requires next == popDict[dates[n] := PopulationAt(dates, population, changes, n)]
    ensures forall i :: 0 <= i < m ==> Recorded(dates, population, changes, next, i, m)
  {
    forall i | 0 <= i < m
      ensures Recorded(dates, population, changes, next, i, m)
    {
      if i < n && LastBefore(dates, i, m) {
        assert dates[i] != dates[n];
        assert LastBefore(dates, i, n);
        assert Recorded(dates, population, changes, popDict, i, n);
      }
    }
  }

  /** At the end of the loop the invariant gives the postconditions. */
  lemma LoopExit(dates: seq<int>, population: int, changes: map<int, int>,
                 popDict: map<int, int>, populationNow: int)
    requires LoopInvariant(dates, population, changes, popDict, populationNow, |dates|)
    ensures forall d :: d in popDict <==> d in dates
    ensures forall i :: 0 <= i < |dates| && LastBefore(dates, i, |dates|) ==>
      dates[i] in popDict && popDict[dates[i]] == PopulationAt(dates, population, changes, i)
  {
    assert dates[..|dates|] == dates;
    forall i | 0 <= i < |dates| && LastBefore(dates, i, |dates|)
      ensures dates[i] in popDict && popDict[dates[i]] == PopulationAt(dates, population, changes, i)
    {
      assert Recorded(dates, population, changes, popDict, i, |dates|);
    }
  }
}
