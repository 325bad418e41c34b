# ChangeFinder bookkeeping and the SIR model, in Dafny

This project models two pieces of covsirphy, a library for epidemic-curve
analysis with SIR-derived compartmental models:

- the change-point bookkeeping of `ChangeFinder`
  (`covsirphy/analysis/sr_change.py`). `ChangeFinder` splits a region's daily
  series into contiguous phases. The model covers:
  - the per-date population map;
  - the loop that draws the change indices, each leaving every phase at
    least `min_duration` days;
  - the conversion of the drawn indices into sorted change dates;
  - the start/end lists of the phases;
  - the start of `run`: its settings, its early exit and the creation of the study;
  - the phase dictionary returned by `show`.
- the `SIR` model class (`covsirphy/ode/sir.py`). The model covers the
  constructor's integer check, the structure of the derivative, and the two
  columns that `specialize` adds to a data set.

Dates are integer day ordinals, so "the day before d" is `d - 1`. The source
uses `%d%b%Y` strings and `strptime`/`timedelta` for the same thing. The
optimiser's `trial.suggest_int` becomes a caller-supplied sequence `choices`.
The model checks each choice against the range the trial is asked for.
Dafny maps are values, so the population map cannot alias or change the
caller's change dictionary. The source gets the same guarantee by copying
the dictionary (`sr_change.py:94`).

Modules, in dependency order:

- `wrappers.dfy`: `Wrappers` holds `Option` and `Result`. They stand in for
  the source's exceptions.
- `population.dfy`: `PopulationData` models `_read_population_data`. It gives
  a reference definition of the population in force at each date, and the
  loop proved against it.
- `selection.dfy`: `ChangeSelection` models the suggestion loop of
  `objective` and `sorted()`. It also holds the facts that a successful
  round guarantees.
- `phases.dfy`: `PhaseSplit` models `phase_range` and the phase dictionary of
  `show`. It proves that the phases cover the series without gaps or
  overlaps, and that each phase lasts at least `min_duration` days.
- `change_finder.dfy`: `ChangeFinding.ChangeFinder` is the object itself. Its
  fields are the ones `__init__` sets, and its methods update them as the
  source does.
- `sir.dfy`: `SIRModel` models `SIR.__init__`, the structure of
  `SIR.__call__` and `SIR.specialize`.

## Model

| member | source | states |
|---|---|---|
| `PopulationData.ReadPopulationData` | covsirphy/analysis/sr_change.py:94-101 | the map has exactly the given dates as keys; each date (its last occurrence) maps to the population in force there, with a missing change dictionary treated as empty |
| `PopulationData.PopulationAtMostRecent` | covsirphy/analysis/sr_change.py:95-100 | the population in force at a date is the value of the most recent change-dictionary date at or before it in list order |
| `PopulationData.PopulationAtNoChange` | covsirphy/analysis/sr_change.py:95-100 | with no change date at or before a date, the initial population is in force there |
| `PopulationData.PopulationAtSource` | covsirphy/analysis/sr_change.py:95-100 | the value in force is always the initial population or the value of some change at or before that date |
| `ChangeSelection.SuggestChangeIndices` | covsirphy/analysis/sr_change.py:160-168 | the loop succeeds exactly when every step has room and takes a choice in range, and then returns those choices, well spaced; it is infeasible exactly at the first step without room; when minDuration * (nPoints + 2) > len(dates) - 1 it is infeasible at step 0 for every trial |
| `ChangeSelection.AcceptedIsWellSpaced` | covsirphy/analysis/sr_change.py:161-168 | accepted indices are strictly spaced by min_duration from the last index downwards, the i-th is at least min_duration * (n_points - i), and all are valid indices |
| `ChangeSelection.AcceptedBelowLast` | covsirphy/analysis/sr_change.py:161-167 | every accepted index is at most len(dates) - 1 - min_duration |
| `ChangeSelection.LastIdAtLeastMinDuration` | covsirphy/analysis/sr_change.py:163-167 | the earliest change index is at least min_duration, so the initial phase gets min_duration days |
| `ChangeSelection.GreedyChoicesAccepted` | covsirphy/analysis/sr_change.py:163-168 | when the first step has room, always taking the top of the range completes the round, so infeasibility of step 0 is the only way every trial fails |
| `ChangeSelection.StrictlyDecreasingSpacing` | covsirphy/analysis/sr_change.py:164-168 | spacing by min_duration >= 0 makes the drawn indices non-increasing, strictly decreasing when min_duration >= 1 |
| `ChangeSelection.Insert` | covsirphy/analysis/sr_change.py:170 | inserting into an ascending list keeps it ascending and adds exactly one copy of the element |
| `ChangeSelection.SortAscending` | covsirphy/analysis/sr_change.py:170 | `sorted()` returns an ascending permutation of its input |
| `ChangeSelection.SortNonIncreasing` | covsirphy/analysis/sr_change.py:170 | sorting a non-increasing list reverses it |
| `ChangeSelection.ChangeDatesOf` | covsirphy/analysis/sr_change.py:169-171 | one change date per drawn index, each a date of the series |
| `ChangeSelection.ChangeDatesReversed` | covsirphy/analysis/sr_change.py:169-171 | the k-th change date is the date at the k-th index counted from the last one drawn |
| `ChangeSelection.ChangeDatesAscending` | covsirphy/analysis/sr_change.py:169-171 | for any min_duration, 0 included, the change dates of a non-decreasing series come out non-decreasing, because the indices are sorted first |
| `ChangeSelection.ChangeDatesOrdered` | covsirphy/analysis/sr_change.py:169-171 | on success with min_duration >= 1 and increasing dates, there are n_points change dates, strictly increasing, after the first date and before the last |
| `PhaseSplit.PhaseRange` | covsirphy/analysis/sr_change.py:184-192 | one start and one end per phase (one more than the change dates); the first start is the first date, the last end the last date, each later start is a change date, and each end is the day before the next start; an empty date list fails |
| `PhaseSplit.StartsIncreasing` | covsirphy/analysis/sr_change.py:184 | with proper change dates the phase starts strictly increase |
| `PhaseSplit.SuccessIsProper` | covsirphy/analysis/sr_change.py:160-171 | with min_duration >= 1 and increasing dates, the change dates of a successful round are proper: strictly increasing, after the first date and no later than the last |
| `PhaseSplit.PhasesPartition` | covsirphy/analysis/sr_change.py:184-192 | for proper change dates (strictly increasing, after the first date, no later than the last), every phase is non-empty and every day from the first date to the last lies in exactly one phase |
| `PhaseSplit.PhasesMinDuration` | covsirphy/analysis/sr_change.py:160-192 | on a daily series, the phases of a successful round last at least min_duration days each, the last at least min_duration + 1 |
| `PhaseSplit.PhaseDict` | covsirphy/analysis/sr_change.py:229-240 | one entry per change date, phase 0 dropped: entry k starts on the (k-1)-th change date, ends the day before the next one or on the last date, and carries the population map's value at its start; a start date missing from the map fails |
| `ChangeFinding.ChangeFinder.constructor` | covsirphy/analysis/sr_change.py:39-58 | the population map is built from the dates and change dictionary, and the search state starts empty: no points, no change dates, no study, zero run time and trials |
| `ChangeFinding.ChangeFinder.Run` | covsirphy/analysis/sr_change.py:114-124 | stores n_points and min_duration for every call; with n_points <= 0 it sets run_time and total_trials to 0 and leaves the study untouched; otherwise it creates a study when there is none and keeps an existing one |
| `ChangeFinding.ChangeFinder.Objective` | covsirphy/analysis/sr_change.py:160-171 | on success change_dates become the dates at the sorted drawn indices; infeasible or rejected rounds leave change_dates unchanged |
| `ChangeFinding.ChangeFinder.Show` | covsirphy/analysis/sr_change.py:229-240 | with at least one date the dictionary is always built, and each phase's population is the population in force on its start date |
| `SIRModel.NewSIR` | covsirphy/ode/sir.py:31-37 | fails with TypeError exactly when the population is not an int (bool counts as int); otherwise stores population, rho and sigma unchanged |
| `SIRModel.Round` | covsirphy/ode/sir.py:45-46 | Python's round lies within 1/2 of its argument, is non-negative for non-negative input, and rounds ties to even |
| `SIRModel.RoundIsNearest` | covsirphy/ode/sir.py:45-46 | no integer is closer to x than round(x) |
| `SIRModel.Derivative` | covsirphy/ode/sir.py:44-48 | three components ordered like VARIABLES summing to zero, so the total is conserved; dS/dt <= 0 and dFR/dt >= 0 for non-negative rates and state; a zero population divides by zero |
| `SIRModel.Specialize` | covsirphy/ode/sir.py:90-99 | keeps every column it receives and adds Susceptible = population - Confirmed and Fatal or Recovered = Fatal + Recovered on every row; a missing input column fails |
| `SIRModel.SpecializeSplitsPopulation` | covsirphy/ode/sir.py:98-99 | on rows with Confirmed = Infected + Fatal + Recovered, S + Infected + FR equals the population |

## Left out

- `ChangeFinding.ChangeFinder.Run`: stops where the search loop of lines 126-150 starts. That loop is left out: it depends on a foreign library, on wall-clock time (timeout, run time) and on parallel trials (`n_jobs`). So the model does not capture how the loop updates change_dates, change_dates_previous, run_time and total_trials; after `Run` with a positive n_points, callers drive `Objective` once per trial with the settings `Run` stored.
- `ChangeFinding.ChangeFinder.Objective`: it returns the selection outcome instead of a score. `error_f` is left out: it fits the `Trend` class, which is not part of this model, and averages float RMSLE scores with weights. The `phase_range` call feeding `error_f` is modelled separately, as `PhaseSplit.PhaseRange`.
- `ChangeSelection.SuggestChangeIndices`: requires `minDuration >= 0`. With a negative minimum duration the source indexes `dates` with negative numbers (Python counts these from the end) or past its end (IndexError). Neither case is modelled.
- `ChangeFinding.ChangeFinder.Show`: only the phase dictionary is modelled. The curve fitting with `Trend`, the pandas concatenation and the plot are left out. The keys are phase numbers; the source formats them with `num2str` ("1st", "2nd", …), and `Word`, which defines it, is not part of this model.
- `ChangeFinding.ChangeFinder.constructor`: it takes the dates directly. `get_dates` wraps `SRData` and `strftime`, and neither is part of this model. The population is an integer, not a dictionary. The cleaned frame, country, province and display name are not kept.
- `PhaseSplit.PhasesMinDuration`: assumes consecutive daily dates, as the data set's daily index provides. On other date lists it speaks only of indices, through `ChangeSelection.AcceptedIsWellSpaced`.
- `SIRModel.Derivative`: states only the structure of lines 45-48, with `beta` as a parameter. As written, `sir.py:44` unpacks a two-element tuple into three names, and `sir.py:45` reads `self.beta`, which the constructor never sets. So the method cannot run as written, and the model does not claim that it does. The time argument `t` is unused in the source and is omitted. The products `beta * s * i / n` and `sigma * i` are computed over exact reals, not Python floats; the sum-to-zero and sign facts do not depend on rounding, and `Round` is exact on every float value.
- `SIR.param_range`, `SIR.calc_r0` and `SIR.calc_days_dict`: left out. They are pandas quantiles and floating-point division and rounding.
- `SIRModel.Specialize`: `super().specialize` and the frame validation of the base class `ModelBase` are not part of this model. Only the two column assignments of lines 98-99 are modelled, on a frame given as integer columns of equal length.
