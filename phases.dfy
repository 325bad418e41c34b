/** ChangeFinder.phase_range and the phase dictionary built by
    ChangeFinder.show (covsirphy/analysis/sr_change.py). Dates are day
    ordinals, so "the day before d" is d - 1. */
module PhaseSplit {
  import opened Wrappers
  import opened ChangeSelection

  /** Start and end dates of the phases, in order. */
  datatype PhaseBounds = PhaseBounds(starts: seq<int>, ends: seq<int>)

  /** The bounds split `dates` at `changeDates`: the phases start on the
      first date and on every change date; each ends the day before the next
      one starts, the last on the last date. */
  predicate SplitsAt(dates: seq<int>, changeDates: seq<int>, b: PhaseBounds)
  {
    && |dates| > 0
    && |b.starts| == |b.ends| == |changeDates| + 1
    && b.starts[0] == dates[0]
    && b.ends[|changeDates|] == dates[|dates| - 1]
    && (forall k :: 0 <= k < |changeDates| ==> b.starts[k + 1] == changeDates[k])
    && (forall k :: 0 <= k < |changeDates| ==> b.ends[k] + 1 == b.starts[k + 1])
  }

  /** phase_range. An empty date list has no first date (IndexError). */
  function PhaseRange(dates: seq<int>, changeDates: seq<int>): (r: Option<PhaseBounds>)
    ensures r.None? <==> |dates| == 0
    ensures r.Some? ==> SplitsAt(dates, changeDates, r.value)
  {
    if |dates| == 0 then None
    else
      var endsWithoutLast := seq(|changeDates|, k requires 0 <= k < |changeDates| => changeDates[k] - 1);
      Some(PhaseBounds([dates[0]] + changeDates, endsWithoutLast + [dates[|dates| - 1]]))
  }

  /** The change dates split the series properly: increasing, after the
      first date and no later than the last one. */
  predicate ProperChanges(dates: seq<int>, changeDates: seq<int>)
  {
    && |dates| > 0
    && StrictlyIncreasing(changeDates)
    && (forall k :: 0 <= k < |changeDates| ==> dates[0] < changeDates[k] <= dates[|dates| - 1])
  }

  /** The change dates a successful round writes split a non-empty,
      increasing series properly, so the partition facts below apply to
      them. */
  lemma SuccessIsProper(dates: seq<int>, nPoints: int, minDuration: int, ids: seq<int>)
    requires minDuration >= 1
    requires |dates| > 0
    requires StrictlyIncreasing(dates)
    requires WellSpaced(|dates|, nPoints, minDuration, ids)
    ensures ProperChanges(dates, ChangeDatesOf(dates, ids))
  {
    ChangeDatesOrdered(dates, nPoints, minDuration, ids);
    var c := ChangeDatesOf(dates, ids);
    forall k | 0 <= k < |c| ensures dates[0] < c[k] <= dates[|dates| - 1] {
      if k > 0 {
        assert c[0] < c[k];
      }
      if k < |c| - 1 {
        assert c[k] < c[|c| - 1];
      }
    }
  }

  predicate InPhase(b: PhaseBounds, k: int, d: int)
    requires 0 <= k < |b.starts| == |b.ends|
  {
    b.starts[k] <= d <= b.ends[k]
  }

  /** With proper change dates the phase starts are strictly increasing. */
  lemma StartsIncreasing(dates: seq<int>, changeDates: seq<int>, b: PhaseBounds)
    requires ProperChanges(dates, changeDates)
    requires SplitsAt(dates, changeDates, b)
    ensures forall i, j :: 0 <= i < j < |b.starts| ==> b.starts[i] < b.starts[j]
  {
    forall i, j | 0 <= i < j < |b.starts| ensures b.starts[i] < b.starts[j] {
      if i > 0 {
        assert b.starts[i] == changeDates[i - 1] && b.starts[j] == changeDates[j - 1];
      } else {
        assert b.starts[j] == changeDates[j - 1];
      }
    }
  }

  /** With proper change dates every phase is non-empty, and every day from
      the first date to the last lies in exactly one phase: the phases are
      contiguous, ordered and cover the series without gaps or overlaps. */
  lemma PhasesPartition(dates: seq<int>, changeDates: seq<int>, d: int) returns (k: nat)
    requires ProperChanges(dates, changeDates)
    requires dates[0] <= d <= dates[|dates| - 1]
    ensures var b := PhaseRange(dates, changeDates).value;
      && (forall j :: 0 <= j < |b.starts| ==> b.starts[j] <= b.ends[j])
      && k < |b.starts|
      && InPhase(b, k, d)
      && (forall j :: 0 <= j < |b.starts| && j != k ==> !InPhase(b, j, d))
  {
    k := PartitionOf(dates, changeDates, PhaseRange(dates, changeDates).value, d);
  }

  lemma PartitionOf(dates: seq<int>, changeDates: seq<int>, b: PhaseBounds, d: int) returns (k: nat)
    requires ProperChanges(dates, changeDates)
    requires SplitsAt(dates, changeDates, b)
    requires dates[0] <= d <= dates[|dates| - 1]
    ensures forall j :: 0 <= j < |b.starts| ==> b.starts[j] <= b.ends[j]
    ensures k < |b.starts| && InPhase(b, k, d)
    ensures forall j :: 0 <= j < |b.starts| && j != k ==> !InPhase(b, j, d)
  {
    var n := |b.starts|;
    StartsIncreasing(dates, changeDates, b);
    forall j | 0 <= j < n ensures b.starts[j] <= b.ends[j] {
      if j < n - 1 {
        assert b.starts[j] < b.starts[j + 1];
      } else if j > 0 {
        assert b.starts[j] == changeDates[j - 1];
      }
    }
    // the last phase starting on or before d
    k := 0;
    while k + 1 < n && b.starts[k + 1] <= d
      invariant 0 <= k < n
      invariant b.starts[k] <= d
    {
      k := k + 1;
    }
    forall j | 0 <= j < n && j != k ensures !InPhase(b, j, d) {
      if j < k {
        assert b.ends[j] + 1 == b.starts[j + 1] <= b.starts[k];
      } else {
        assert b.ends[k] + 1 == b.starts[k + 1] <= b.starts[j];
      }
    }
  }

  /** Dates one day apart, as the daily index of the data set is. */
  predicate Consecutive(dates: seq<int>)
  {
    forall i :: 0 <= i < |dates| ==> dates[i] == dates[0] + i
  }

  /** Splitting a daily series at the change dates of a successful round
      gives phases of at least minDuration days each, the last of at least
      minDuration + 1 days. */
  lemma PhasesMinDuration(dates: seq<int>, nPoints: int, minDuration: int, ids: seq<int>)
    requires minDuration >= 1
    requires Consecutive(dates)
    requires WellSpaced(|dates|, nPoints, minDuration, ids)
    requires nPoints >= 1
    ensures var b := PhaseRange(dates, ChangeDatesOf(dates, ids)).value;
      && |b.starts| == nPoints + 1
      && (forall k :: 0 <= k < |b.starts| ==> b.ends[k] - b.starts[k] + 1 >= minDuration)
      && b.ends[nPoints] - b.starts[nPoints] + 1 >= minDuration + 1
  {
    ChangeDatesAsDays(dates, nPoints, minDuration, ids);
    var c := ChangeDatesOf(dates, ids);
    SpacedPhases(dates, c, PhaseRange(dates, c).value, ids, minDuration);
  }

  /** On a daily series the k-th change date lies ids[n - 1 - k] days after
      the first date. */
  lemma ChangeDatesAsDays(dates: seq<int>, nPoints: int, minDuration: int, ids: seq<int>)
    requires minDuration >= 1
    requires Consecutive(dates)
    requires WellSpaced(|dates|, nPoints, minDuration, ids)
    requires nPoints >= 1
    ensures |ids| == nPoints && |dates| > 0
    ensures forall k :: 0 <= k < |ids| ==> ChangeDatesOf(dates, ids)[k] == dates[0] + ids[|ids| - 1 - k]
    ensures dates[|dates| - 1] == dates[0] + |dates| - 1
    ensures ids[|ids| - 1] >= minDuration
  {
    var n := |ids|;
    StrictlyDecreasingSpacing(ids, minDuration);
    ChangeDatesReversed(dates, ids);
    LastIdAtLeastMinDuration(nPoints, minDuration, ids, |dates|);
    var c := ChangeDatesOf(dates, ids);
    forall k | 0 <= k < n ensures c[k] == dates[0] + ids[n - 1 - k] {
      assert c[k] == dates[ids[n - 1 - k]];
    }
  }

  lemma SpacedPhases(dates: seq<int>, c: seq<int>, b: PhaseBounds, ids: seq<int>, minDuration: int)
    requires SplitsAt(dates, c, b)
    requires |c| == |ids| >= 1
    requires forall k :: 0 <= k < |c| ==> c[k] == dates[0] + ids[|ids| - 1 - k]
    requires dates[|dates| - 1] == dates[0] + |dates| - 1
    requires ids[|ids| - 1] >= minDuration && ids[0] <= |dates| - 1 - minDuration
    requires forall k :: 0 <= k < |ids| - 1 ==> ids[k + 1] <= ids[k] - minDuration
    ensures forall k :: 0 <= k < |b.starts| ==> b.ends[k] - b.starts[k] + 1 >= minDuration
    ensures b.ends[|c|] - b.starts[|c|] + 1 >= minDuration + 1
  {
    var n := |c|;
    forall k | 0 <= k < n + 1 ensures b.ends[k] - b.starts[k] + 1 >= minDuration {
      if k == 0 {
        assert b.ends[0] + 1 == c[0] == dates[0] + ids[n - 1];
      } else if k < n {
        assert b.starts[k] == c[k - 1] == dates[0] + ids[n - k];
        assert b.ends[k] + 1 == c[k] == dates[0] + ids[n - 1 - k];
        assert ids[n - 1 - k + 1] <= ids[n - 1 - k] - minDuration;
      } else {
        assert b.starts[n] == c[n - 1] == dates[0] + ids[0];
      }
    }
    assert b.starts[n] == c[n - 1] == dates[0] + ids[0];
  }

  /** One entry of the dictionary returned by show. */
  datatype PhaseInfo = PhaseInfo(startDate: int, endDate: int, population: int)

  /** The phase dictionary of show: keyed by phase number (the source formats
      it as "1st", "2nd", ...), the initial phase 0 dropped, each entry giving
      the phase's dates and the population in force on its start date. A start
      date missing from the population map is a KeyError. */
  function PhaseDict(dates: seq<int>, changeDates: seq<int>, popDict: map<int, int>): (r: Option<map<nat, PhaseInfo>>)
    ensures r.Some? <==>
      |dates| > 0 && dates[0] in popDict && forall k :: 0 <= k < |changeDates| ==> changeDates[k] in popDict
    ensures r.Some? ==> forall k :: k in r.value <==> 1 <= k <= |changeDates|
    ensures r.Some? ==> forall k :: 1 <= k <= |changeDates| ==>
      && r.value[k].startDate == changeDates[k - 1]
      && r.value[k].endDate == (if k < |changeDates| then changeDates[k] - 1 else dates[|dates| - 1])
      && r.value[k].population == popDict[changeDates[k - 1]]
  {
    match PhaseRange(dates, changeDates)
    case None => None
    case Some(b) =>
      if forall k :: 0 <= k < |b.starts| ==> b.starts[k] in popDict then
        Some(map k: nat | 1 <= k < |b.starts| :: PhaseInfo(b.starts[k], b.ends[k], popDict[b.starts[k]]))
      else
        None
  }
}
