/** The ChangeFinder object of covsirphy/analysis/sr_change.py: the ordered
    dates of one region, the population in force on each date, the search
    settings and the change dates found so far. */
module ChangeFinding {
  import opened Wrappers
  import opened PopulationData
  import opened ChangeSelection
  import opened PhaseSplit

  /** The optimiser study, absent until the first search creates it. */
  datatype Study = NoStudy | Created(trials: nat)

  class ChangeFinder {
    /** Day ordinals of the series, in order. */
    const dates: seq<int>
    /** Population in force on each date. */
    const popDict: map<int, int>
    /** The arguments popDict was built from. */
    ghost const population: int
    ghost const changes: map<int, int>

    var nPoints: int
    var minDuration: int
    var changeDates: seq<int>
    var changeDatesPrevious: seq<int>
    var study: Study
    var runTime: real
    var totalTrials: int

    /** popDict covers exactly the dates and holds the population in force on
        each; the change dates are dates of the series. */
    ghost predicate Valid()
      reads this
    {
      && (forall d :: d in popDict <==> d in dates)
      && (forall i :: 0 <= i < |dates| && LastBefore(dates, i, |dates|) ==>
            popDict[dates[i]] == PopulationAt(dates, population, changes, i))
      && (forall k :: 0 <= k < |changeDates| ==> changeDates[k] in dates)
    }

    /** __init__, with the dates given directly (they come from the data set
        in the source) and the population an integer. */
    constructor (dates: seq<int>, population: int, changeDict: Option<map<int, int>>)
      ensures Valid()
      ensures this.dates == dates && this.population == population
      ensures changes == if changeDict.Some? then changeDict.value else map[]
      ensures nPoints == 0 && minDuration == 0
      ensures changeDates == [] && changeDatesPrevious == []
      ensures study == NoStudy && runTime == 0.0 && totalTrials == 0
    {
      var pd := ReadPopulationData(dates, population, changeDict);
      this.dates := dates;
      this.popDict := pd;
      this.population := population;
      this.changes := if changeDict.Some? then changeDict.value else map[];
      nPoints := 0;
      minDuration := 0;
      changeDates := [];
      changeDatesPrevious := [];
      study := NoStudy;
      runTime := 0.0;
      totalTrials := 0;
    }

    /** run, up to the start of the search loop: the settings are stored for
        every number of points; with none asked for, the run time and trial
        count are reset and nothing is searched; otherwise a study is created
        if there is none yet. */
    method Run(nPoints: int, minDuration: int)
      requires Valid()
      modifies this
      ensures Valid()
      ensures this.nPoints == nPoints && this.minDuration == minDuration
      ensures nPoints <= 0 ==> runTime == 0.0 && totalTrials == 0 && study == old(study)
      ensures nPoints > 0 ==> runTime == old(runTime) && totalTrials == old(totalTrials)
      ensures nPoints > 0 ==> study == if old(study).NoStudy? then Created(0) else old(study)
      ensures changeDates == old(changeDates) && changeDatesPrevious == old(changeDatesPrevious)
    {
      this.nPoints := nPoints;
      this.minDuration := minDuration;
      if nPoints <= 0 {
        runTime := 0.0;
        totalTrials := 0;
        return;
      }
      if study == NoStudy {
        study := Created(0);
      }
    }

    /** The suggestion part of objective: on success the change dates are the
        dates at the chosen indices, in ascending index order; otherwise they
        are left as they were. */
    method Objective(choices: seq<int>) returns (sel: Selection)
      requires Valid()
      requires minDuration >= 0
      modifies this`changeDates
      ensures Valid()
      ensures sel.Chosen? <==> Accepted(|dates|, nPoints, minDuration, choices, Steps(nPoints))
      ensures sel.Chosen? ==>
        && sel.ids == choices[..Steps(nPoints)]
        && WellSpaced(|dates|, nPoints, minDuration, sel.ids)
        && changeDates == ChangeDatesOf(dates, sel.ids)
      ensures sel.Infeasible? ==>
        && Accepted(|dates|, nPoints, minDuration, choices, sel.step)
        && !HasRoom(|dates|, nPoints, minDuration, choices, sel.step)
      ensures !sel.Chosen? ==> changeDates == old(changeDates)
    {
      sel := SuggestChangeIndices(|dates|, nPoints, minDuration, choices);
      if sel.Chosen? {
        changeDates := ChangeDatesOf(dates, sel.ids);
      }
    }

    /** The phase dictionary of show. Every change date is a date of the
        series, so with at least one date no lookup fails, and each phase
        carries the population in force on its start date. */
    method Show() returns (r: Option<map<nat, PhaseInfo>>)
      requires Valid()
      ensures r == PhaseDict(dates, changeDates, popDict)
      ensures r.Some? <==> |dates| > 0
      ensures r.Some? ==> forall k, i ::
        1 <= k <= |changeDates| && 0 <= i < |dates| && dates[i] == changeDates[k - 1] && LastBefore(dates, i, |dates|) ==>
          r.value[k].population == PopulationAt(dates, population, changes, i)
    {
      r := PhaseDict(dates, changeDates, popDict);
    }
  }
}
