/** The change-point suggestion loop of ChangeFinder.objective
    (covsirphy/analysis/sr_change.py): `nPoints` change indices into the date
    list are drawn one after another, from the end of the series towards its
    start, each leaving at least `minDuration` days to every phase. The
    optimiser's `trial.suggest_int` is replaced by `choices`, the integers the
    trial would return at each step. */
module ChangeSelection {

  /** Outcome of one round of suggestions.
      Chosen: every step had room and every choice was in its range; `ids`
        are the chosen indices in the order they were drawn.
      Infeasible: at `step` there was no room left (the objective returns
        infinity and writes no change dates).
      Rejected: at `step` the supplied choice was missing or outside the
        range the trial is asked for (something suggest_int never returns). */
  datatype Selection = Chosen(ids: seq<int>) | Infeasible(step: nat) | Rejected(step: nat)

  /** Number of loop steps of `for i in range(nPoints)`. */
  function Steps(nPoints: int): nat
  {
    if nPoints < 0 then 0 else nPoints
  }

  /** The last selected index before step k: the last date's index at first,
      then the previous choice. */
  function PrevIndex(numDates: nat, choices: seq<int>, k: nat): int
    requires k <= |choices|
  {
    if k == 0 then numDates - 1 else choices[k - 1]
  }

  /** Lower end of the range asked for at step k: room for minDuration days
      for each of the phases still to be placed before it. */
  function IdMin(nPoints: int, minDuration: int, k: nat): int
  {
    minDuration * (nPoints - k)
  }

  /** Upper end of the range asked for at step k. */
  function IdMax(numDates: nat, minDuration: int, choices: seq<int>, k: nat): int
    requires k <= |choices|
  {
    PrevIndex(numDates, choices, k) - minDuration
  }

  /** Step k passes the feasibility test of the objective. */
  predicate HasRoom(numDates: nat, nPoints: int, minDuration: int, choices: seq<int>, k: nat)
    requires k <= |choices|
  {
    IdMin(nPoints, minDuration, k) + minDuration <= IdMax(numDates, minDuration, choices, k)
  }

  /** The choice for step k exists and lies in the range the trial is asked for. */
  predicate InRange(numDates: nat, nPoints: int, minDuration: int, choices: seq<int>, k: nat)
    requires k <= |choices|
  {
    k < |choices| && IdMin(nPoints, minDuration, k) <= choices[k] <= IdMax(numDates, minDuration, choices, k)
  }

  /** The first k steps all had room and all took a choice in range. */
  predicate Accepted(numDates: nat, nPoints: int, minDuration: int, choices: seq<int>, k: nat)
  {
    k <= |choices| &&
    forall j :: 0 <= j < k ==>
      HasRoom(numDates, nPoints, minDuration, choices, j) && InRange(numDates, nPoints, minDuration, choices, j)
  }

  /** The index facts a successful round guarantees: one index per change
      point, each at least minDuration below the previous one (the first at
      least minDuration below the last date), the k-th leaving minDuration
      days for each of the nPoints - k phases before it, all valid indices. */
  predicate WellSpaced(numDates: nat, nPoints: int, minDuration: int, ids: seq<int>)
  {
    && |ids| == Steps(nPoints)
    && (|ids| > 0 ==> ids[0] <= numDates - 1 - minDuration)
    && (forall k :: 0 <= k < |ids| - 1 ==> ids[k + 1] <= ids[k] - minDuration)
    && (forall k :: 0 <= k < |ids| ==> IdMin(nPoints, minDuration, k) <= ids[k])
    && (forall k :: 0 <= k < |ids| ==> 0 <= ids[k] < numDates)
  }

  lemma MulNonNegative(a: int, b: int)
    requires a >= 0 && b >= 0
    ensures a * b >= 0
  {
  }

  /** Every accepted round is well spaced. */
  lemma {:induction false} AcceptedIsWellSpaced(numDates: nat, nPoints: int, minDuration: int, choices: seq<int>)
    requires minDuration >= 0
    requires Accepted(numDates, nPoints, minDuration, choices, Steps(nPoints))
    ensures WellSpaced(numDates, nPoints, minDuration, choices[..Steps(nPoints)])
  {
    var n := Steps(nPoints);
    var ids := choices[..n];
    forall k | 0 <= k < n
      ensures 0 <= ids[k] <= numDates - 1 - minDuration
    {
      AcceptedBelowLast(numDates, nPoints, minDuration, choices, k);
      assert HasRoom(numDates, nPoints, minDuration, choices, k) && InRange(numDates, nPoints, minDuration, choices, k);
      MulNonNegative(minDuration, nPoints - k);
    }
    forall k | 0 <= k && k + 1 < n
      ensures ids[k + 1] <= ids[k] - minDuration
    {
      assert InRange(numDates, nPoints, minDuration, choices, k + 1);
    }
    forall k | 0 <= k < n
      ensures minDuration * (nPoints - k) <= ids[k]
    {
      assert InRange(numDates, nPoints, minDuration, choices, k);
    }
  }

  /** Accepted choices never exceed the last index minus minDuration. */
  lemma {:induction false} AcceptedBelowLast(numDates: nat, nPoints: int, minDuration: int, choices: seq<int>, k: nat)
    requires minDuration >= 0
    requires k < |choices|
    requires Accepted(numDates, nPoints, minDuration, choices, k + 1)
    ensures choices[k] <= numDates - 1 - minDuration
    decreases k
  {
    assert InRange(numDates, nPoints, minDuration, choices, k);
    if k > 0 {
      AcceptedBelowLast(numDates, nPoints, minDuration, choices, k - 1);
    }
  }

  /** The suggestion loop of the objective (id_selected starts with the last
      index; each step asks for an index in [id_min, id_max] and gives up with
      infinity when id_min + minDuration > id_max). */
  method SuggestChangeIndices(numDates: nat, nPoints: int, minDuration: int, choices: seq<int>)
    returns (sel: Selection)
    requires minDuration >= 0
    ensures sel.Chosen? <==> Accepted(numDates, nPoints, minDuration, choices, Steps(nPoints))
    ensures sel.Chosen? ==> sel.ids == choices[..Steps(nPoints)]
    ensures sel.Chosen? ==> WellSpaced(numDates, nPoints, minDuration, sel.ids)
    ensures sel.Infeasible? ==>
      && sel.step < Steps(nPoints)
      && Accepted(numDates, nPoints, minDuration, choices, sel.step)
      && !HasRoom(numDates, nPoints, minDuration, choices, sel.step)
    ensures sel.Rejected? ==>
      && sel.step < Steps(nPoints)
      && Accepted(numDates, nPoints, minDuration, choices, sel.step)
      && HasRoom(numDates, nPoints, minDuration, choices, sel.step)
      && !InRange(numDates, nPoints, minDuration, choices, sel.step)
    ensures nPoints >= 1 && minDuration * (nPoints + 2) > numDates - 1 ==> sel == Infeasible(0)
  {
    assert minDuration * (nPoints + 2) == minDuration * nPoints + 2 * minDuration;
    var selected := [numDates - 1];
    var i := 0;
    while i < nPoints
      invariant 0 <= i <= Steps(nPoints)
      invariant Accepted(numDates, nPoints, minDuration, choices, i)
      invariant selected == [numDates - 1] + choices[..i]
      invariant i > 0 ==> HasRoom(numDates, nPoints, minDuration, choices, 0)
    {
      var idMin := minDuration * (nPoints - |selected| + 1);
      var idMax := selected[|selected| - 1] - minDuration;
      assert idMin == IdMin(nPoints, minDuration, i) && idMax == IdMax(numDates, minDuration, choices, i);
      if idMin + minDuration > idMax {
        assert !HasRoom(numDates, nPoints, minDuration, choices, i);
        return Infeasible(i);
      }
      if i >= |choices| || !(idMin <= choices[i] <= idMax) {
        assert !(HasRoom(numDates, nPoints, minDuration, choices, i) && InRange(numDates, nPoints, minDuration, choices, i));
        return Rejected(i);
      }
      selected := selected + [choices[i]];
      assert choices[..i + 1] == choices[..i] + [choices[i]];
      i := i + 1;
    }
    sel := Chosen(selected[1..]);
    assert Steps(nPoints) > 0 ==> HasRoom(numDates, nPoints, minDuration, choices, 0);
    AcceptedIsWellSpaced(numDates, nPoints, minDuration, choices);
  }

  /** The suggestions that always take the top of the range. */
  function GreedyChoices(numDates: nat, nPoints: int, minDuration: int): (r: seq<int>)
    ensures |r| == Steps(nPoints)
  {
    seq(Steps(nPoints), k => numDates - 1 - minDuration * (k + 1))
  }

  /** Infeasibility of the very first step is the only way a round can be
      infeasible for every trial: when the first step has room, always taking
      the top of the range completes the round. Together with the last
      postcondition of SuggestChangeIndices this makes
      minDuration * (nPoints + 2) <= numDates - 1 the exact condition under
      which some trial yields change points. */
  lemma GreedyChoicesAccepted(numDates: nat, nPoints: int, minDuration: int)
    requires minDuration >= 0
    requires minDuration * (Steps(nPoints) + 2) <= numDates - 1
    ensures Accepted(numDates, nPoints, minDuration, GreedyChoices(numDates, nPoints, minDuration), Steps(nPoints))
  {
    var n := Steps(nPoints);
    var c := GreedyChoices(numDates, nPoints, minDuration);
    forall j | 0 <= j < n
      ensures HasRoom(numDates, nPoints, minDuration, c, j) && InRange(numDates, nPoints, minDuration, c, j)
    {
      assert PrevIndex(numDates, c, j) == numDates - 1 - minDuration * j by {
        if j > 0 {
          assert c[j - 1] == numDates - 1 - minDuration * j;
        }
      }
      assert c[j] == numDates - 1 - minDuration * (j + 1) == PrevIndex(numDates, c, j) - minDuration;
      // room: minDuration * (n - j) + minDuration <= numDates - 1 - minDuration * (j + 1)
      assert minDuration * (n - j) + minDuration + minDuration * (j + 1) == minDuration * (n + 2);
      assert nPoints >= n;
    }
  }

  predicate Ascending(s: seq<int>)
  {
    forall j, k :: 0 <= j < k < |s| ==> s[j] <= s[k]
  }

  predicate NonIncreasing(s: seq<int>)
  {
    forall j, k :: 0 <= j < k < |s| ==> s[j] >= s[k]
  }

  function Reversed(s: seq<int>): (r: seq<int>)
    ensures |r| == |s|
    ensures forall k :: 0 <= k < |s| ==> r[k] == s[|s| - 1 - k]
  {
    if s == [] then [] else Reversed(s[1..]) + [s[0]]
  }

  /** Insertion of x into an ascending sequence, after every element not
      greater than x. */
  function Insert(x: int, t: seq<int>): (r: seq<int>)
    requires Ascending(t)
    ensures |r| == |t| + 1
    ensures r[0] == if t == [] || x < t[0] then x else t[0]
    ensures Ascending(r)
    ensures multiset(r) == multiset(t) + multiset{x}
  {
    if t == [] then [x]
    else if x < t[0] then [x] + t
    else
      assert t == [t[0]] + t[1..];
      [t[0]] + Insert(x, t[1..])
  }

  /** Python's sorted() on a list of integers: the ascending permutation. */
  function SortAscending(s: seq<int>): (r: seq<int>)
    ensures Ascending(r)
    ensures multiset(r) == multiset(s)
  {
    if s == [] then []
    else
      assert s == [s[0]] + s[1..];
      Insert(s[0], SortAscending(s[1..]))
  }

  /** Inserting an element no smaller than every element appends it. */
  lemma {:induction false} InsertLargest(x: int, t: seq<int>)
    requires Ascending(t)
    requires forall k :: 0 <= k < |t| ==> t[k] <= x
    ensures Insert(x, t) == t + [x]
  {
    if t != [] {
      InsertLargest(x, t[1..]);
      assert t == [t[0]] + t[1..];
    }
  }

  /** Sorting a non-increasing sequence reverses it: the indices of a
      successful round come out of sorted() last-drawn first. */
  lemma {:induction false} SortNonIncreasing(s: seq<int>)
    requires NonIncreasing(s)
    ensures SortAscending(s) == Reversed(s)
  {
    if s != [] {
      var rest := s[1..];
      NonIncreasingTail(s);
      SortNonIncreasing(rest);
      HeadBoundsReversedTail(s);
      InsertLargest(s[0], SortAscending(rest));
    }
  }

  /** The tail of a non-increasing sequence is non-increasing. */
  lemma NonIncreasingTail(s: seq<int>)
    requires s != [] && NonIncreasing(s)
    ensures NonIncreasing(s[1..])
  {
    var rest := s[1..];
    forall j, k | 0 <= j < k < |rest| ensures rest[j] >= rest[k] {
      assert rest[j] == s[j + 1] && rest[k] == s[k + 1];
    }
  }

  /** The head of a non-increasing sequence bounds its reversed tail. */
  lemma HeadBoundsReversedTail(s: seq<int>)
    requires s != [] && NonIncreasing(s)
    ensures forall k :: 0 <= k < |Reversed(s[1..])| ==> Reversed(s[1..])[k] <= s[0]
  {
    var rest := s[1..];
    var t := Reversed(rest);
    forall k | 0 <= k < |t| ensures t[k] <= s[0] {
      assert t[k] == rest[|rest| - 1 - k] == s[|s| - 1 - k];
    }
  }

  /** self.change_dates = [dates[num] for num in sorted(ids)]. */
  function ChangeDatesOf(dates: seq<int>, ids: seq<int>): (r: seq<int>)
    requires forall k :: 0 <= k < |ids| ==> 0 <= ids[k] < |dates|
    ensures |r| == |ids|
    ensures forall k :: 0 <= k < |r| ==> r[k] in dates
  {
    var sorted := SortAscending(ids);
    assert forall k :: 0 <= k < |sorted| ==> sorted[k] in multiset(ids);
    seq(|sorted|, k requires 0 <= k < |sorted| => dates[sorted[k]])
  }

  predicate StrictlyIncreasing(s: seq<int>)
  {
    forall j, k :: 0 <= j < k < |s| ==> s[j] < s[k]
  }

  /** On success with a positive minimum duration and increasing dates, the
      change dates are strictly increasing, lie after the first date and
      before the last one, and are the dates at the drawn indices, earliest
      first. */
  lemma ChangeDatesOrdered(dates: seq<int>, nPoints: int, minDuration: int, ids: seq<int>)
    requires minDuration >= 1
    requires StrictlyIncreasing(dates)
    requires WellSpaced(|dates|, nPoints, minDuration, ids)
    ensures |ChangeDatesOf(dates, ids)| == Steps(nPoints)
    ensures StrictlyIncreasing(ChangeDatesOf(dates, ids))
    ensures forall k :: 0 <= k < |ids| ==> ChangeDatesOf(dates, ids)[k] == dates[ids[|ids| - 1 - k]]
    ensures |ids| > 0 ==> dates[0] < ChangeDatesOf(dates, ids)[0]
    ensures |ids| > 0 ==> ChangeDatesOf(dates, ids)[|ids| - 1] < dates[|dates| - 1]
  {
    StrictlyDecreasingSpacing(ids, minDuration);
    ChangeDatesReversed(dates, ids);
    var r := ChangeDatesOf(dates, ids);
    var n := |ids|;
    forall j, k | 0 <= j < k < n ensures r[j] < r[k] {
      assert ids[n - 1 - k] > ids[n - 1 - j];
    }
    if n > 0 {
      LastIdAtLeastMinDuration(nPoints, minDuration, ids, |dates|);
    }
  }

  /** Whatever the minimum duration (0 lets a drawn index repeat), sorting the
      indices makes the change dates of a non-decreasing series
      non-decreasing. */
  lemma ChangeDatesAscending(dates: seq<int>, ids: seq<int>)
    requires forall k :: 0 <= k < |ids| ==> 0 <= ids[k] < |dates|
    requires Ascending(dates)
    ensures Ascending(ChangeDatesOf(dates, ids))
  {
    var sorted := SortAscending(ids);
    SortedInRange(ids, |dates|);
    var r := ChangeDatesOf(dates, ids);
    forall j, k | 0 <= j < k < |r| ensures r[j] <= r[k] {
      assert r[j] == dates[sorted[j]] && r[k] == dates[sorted[k]];
      assert sorted[j] <= sorted[k];
    }
  }

  /** Sorting keeps every index within range. */
  lemma SortedInRange(ids: seq<int>, n: int)
    requires forall k :: 0 <= k < |ids| ==> 0 <= ids[k] < n
    ensures forall k :: 0 <= k < |SortAscending(ids)| ==> 0 <= SortAscending(ids)[k] < n
  {
    var sorted := SortAscending(ids);
    forall k | 0 <= k < |sorted| ensures 0 <= sorted[k] < n {
      assert sorted[k] in multiset(ids);
    }
  }

  /** For non-increasing indices, the k-th change date is the date at the
      k-th index counted from the last one drawn. */
  lemma ChangeDatesReversed(dates: seq<int>, ids: seq<int>)
    requires forall k :: 0 <= k < |ids| ==> 0 <= ids[k] < |dates|
    requires NonIncreasing(ids)
    ensures forall k :: 0 <= k < |ids| ==> ChangeDatesOf(dates, ids)[k] == dates[ids[|ids| - 1 - k]]
  {
    SortNonIncreasing(ids);
    var sorted := SortAscending(ids);
    forall k | 0 <= k < |ids| ensures ChangeDatesOf(dates, ids)[k] == dates[ids[|ids| - 1 - k]] {
      assert sorted[k] == Reversed(ids)[k] == ids[|ids| - 1 - k];
    }
  }

  /** The earliest change index leaves the first phase minDuration days. */
  lemma LastIdAtLeastMinDuration(nPoints: int, minDuration: int, ids: seq<int>, numDates: nat)
    requires minDuration >= 0
    requires WellSpaced(numDates, nPoints, minDuration, ids)
    requires |ids| > 0
    ensures ids[|ids| - 1] >= minDuration
  {
    var last := |ids| - 1;
    assert minDuration * (nPoints - last) <= ids[last];
    assert nPoints - last == 1;
  }

  /** Consecutive spacing of at least minDuration keeps the indices
      non-increasing, and strictly decreasing when minDuration >= 1. */
  lemma {:induction false} StrictlyDecreasingSpacing(ids: seq<int>, minDuration: int)
    requires minDuration >= 0
    requires forall k :: 0 <= k < |ids| - 1 ==> ids[k + 1] <= ids[k] - minDuration
    ensures NonIncreasing(ids)
    ensures minDuration >= 1 ==> forall j, k :: 0 <= j < k < |ids| ==> ids[j] > ids[k]
  {
    if |ids| > 1 {
      StrictlyDecreasingSpacing(ids[1..], minDuration);
      forall k | 1 <= k < |ids| ensures ids[0] >= ids[k] && (minDuration >= 1 ==> ids[0] > ids[k]) {
        if k > 1 {
          assert ids[1..][0] >= ids[1..][k - 1];
        }
      }
    }
  }
}
