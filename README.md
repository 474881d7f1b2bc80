# Daily activity scheduling environment — Dafny model

This project models the reinforcement-learning environment in
`notebooks/environment_setup.py`. An agent fills a one-day schedule hour by
hour. Each step is rewarded by how often, historically, the chosen activity
happened at that hour.

It has two parts.

- `time_preferences.dfy`, module `TimePreferences` — the `ActivityPatterns`
  object. The historical data is a sequence of `Record(hour, activity, name)`,
  plus flags for which columns are present. The frequency table maps each
  activity code to 24 real-valued frequencies. For hour `h` the value is
  (records of the activity at `h`) / (all records of the activity).
  `InitializePatterns` builds the table with the source's two loops: one over
  the distinct activity codes, and one over the observed hours, each written
  into a zero-filled 24-entry buffer. It is proved equal to the specification
  `PreferenceTable`. Lemmas then show:
  - every entry lies in [0, 1];
  - hours never observed hold 0;
  - a row sums to at most 1, and to exactly 1 if and only if all of the
    activity's hours are inside the day;
  - a missing column gives an empty table;
  - lookups fall back to 0.01.
- `schedule_env.dfy`, module `ScheduleEnvironment` — the `ScheduleEnv`
  object. The class keeps the schedule in an `array<int>` written in place,
  plus the fields `currentSlot`, `lastActivity` and `dayOfWeek`.
  `Reset`, `Step` and `GetObservation` are proved against a value-level state
  machine (`EnvState`, `ResetState`, `StepState`, `Run`). The lemmas about
  that machine cover the whole episode: the pointer after k steps, the
  schedule contents, when `done` becomes true, and the state invariant.

The reward looks up the time preference with the action index as the
activity key (line 158). The table's keys are the encoded activity codes
(line 22). The model passes the action through unchanged, as the code does.
`RewardFromHistory` states the consequence: an action that is not an observed
code earns the 0.01 default.

The code normalises each row over all of the activity's records, including
records whose hour lies outside [0, 24), and then drops those hours from the
row. So a row sums to 1 exactly when every hour of that activity is inside
the day, and to less otherwise; `RowSum` states both directions.

Randomness is modelled as a nondeterministic choice inside the stated range.
This covers the day of the week at reset and the replacement of an invalid
action.

## Model

| member | source | states |
|---|---|---|
| `TimePreferences.InitializePatterns` | notebooks/environment_setup.py:14-32 | The table has one row per distinct activity code when both the hour and activity-code columns exist, and is empty otherwise. Each row equals the specification `HourFrequencies`. |
| `TimePreferences.HourDistribution` | notebooks/environment_setup.py:24-30 | The zero-filled 24-entry buffer, after each observed in-day hour gets its frequency, is exactly the per-hour frequency row. Unobserved hours and out-of-day hours contribute nothing. |
| `TimePreferences.UniqueActivities` | notebooks/environment_setup.py:22 | Holds exactly the activity codes that occur in the records, each once. |
| `TimePreferences.DistinctHours` | notebooks/environment_setup.py:24 | Holds exactly the hours at which the activity has at least one record, each once. |
| `TimePreferences.Frequency` | notebooks/environment_setup.py:24 | The normalised count lies in [0, 1], and is 0 for an hour with no record of the activity. |
| `TimePreferences.HourCount` | notebooks/environment_setup.py:23-24 | The count at one hour never exceeds the activity's total count, which is the normalising denominator. |
| `TimePreferences.TimePreferenceScore` | notebooks/environment_setup.py:34-38 | Returns exactly 0.01 for an unknown activity or an hour outside [0, 24), and the stored entry otherwise. It lies in [0, 1] when the table's entries do. |
| `TimePreferences.SequenceScore` | notebooks/environment_setup.py:40-44 | Always returns 0.5, whatever the pair of activities. |
| `TimePreferences.BuiltTableIsWellFormed` | notebooks/environment_setup.py:26-32 | Every row of the built table has 24 entries, each in [0, 1]. |
| `TimePreferences.ScoreFromHistory` | notebooks/environment_setup.py:20-38 | Against the built table, the score is the observed frequency for a known activity at an hour of the day, and 0.01 otherwise. |
| `TimePreferences.UnobservedHourIsZero` | notebooks/environment_setup.py:26-30 | An activity with no record at an in-day hour has 0 stored for that hour. |
| `TimePreferences.RowSum` | notebooks/environment_setup.py:24-30 | Each row sums to at most 1. It sums to exactly 1 if and only if every record of that activity has an hour in [0, 24). |
| `TimePreferences.MissingColumnGivesDefault` | notebooks/environment_setup.py:17-20 | Without the hour or the activity-code column the table is empty, and every lookup returns 0.01. |
| `TimePreferences.SingleObservationScenario` | notebooks/environment_setup.py:20-38 | One activity observed once at hour 9 scores 1 at hour 9 and 0 at hour 10. An unseen activity scores 0.01. |
| `ScheduleEnvironment.StepState` | notebooks/environment_setup.py:128-136 | A step writes the action into the current slot and leaves every other slot unchanged. It advances the pointer by one, sets the last activity to the action and keeps the day. |
| `ScheduleEnvironment.Run` | notebooks/environment_setup.py:128-136 | After a sequence of steps, the pointer has advanced by the number of steps and the schedule length is unchanged. |
| `ScheduleEnvironment.ResetEstablishesInvariant` | notebooks/environment_setup.py:90-97 | The reset state satisfies the state invariant, and it is not done exactly when there is at least one slot. |
| `ScheduleEnvironment.StepPreservesInvariant` | notebooks/environment_setup.py:125-136 | A step with a valid action keeps the pointer in range, the day in 0..6 and every written activity in the action space. |
| `ScheduleEnvironment.RunWrites` | notebooks/environment_setup.py:128-136 | Successive steps write their actions into consecutive slots from the pointer on, leave all other slots alone, and leave the last action as the last activity. |
| `ScheduleEnvironment.RunPreservesInvariant` | notebooks/environment_setup.py:125-136 | Any run of valid actions keeps the state invariant. |
| `ScheduleEnvironment.EpisodeFromReset` | notebooks/environment_setup.py:129-139 | From reset, after k <= numSlots steps the pointer is k and the schedule is the k actions followed by zeros. The episode is done exactly when k == numSlots. |
| `ScheduleEnvironment.Observation` | notebooks/environment_setup.py:99-118 | The vector has length 3 + numSlots. Its leading entries are currentSlot/numSlots, day/6, and lastActivity/(numActivities-1) (or 0 with at most one activity). Entry 3+i is 1 exactly when i < currentSlot. Under the state invariant every entry is in [0, 1]. |
| `ScheduleEnvironment.CalculateReward` | notebooks/environment_setup.py:153-170 | The reward is max(2 * timePref(action, slot) + (0.5 if slot > 0), 0.1). It is always at least 0.1, and at most 2.5 when the table's entries are in [0, 1]. |
| `ScheduleEnvironment.RewardFromHistory` | notebooks/environment_setup.py:153-170 | Against the table built from the data, with the action used as the activity key, the reward uses the observed frequency when the action is an observed code at an in-day slot, and 0.01 otherwise. |
| `ScheduleEnvironment.NatToDecimalValue` | notebooks/environment_setup.py:174 | The code rendered inside a default name is its decimal notation: digits only, no leading zero, and reading the digits back gives the code. |
| `ScheduleEnvironment.ActivityName` | notebooks/environment_setup.py:172-174 | A known code gets its stored name; any other code gets "Activity <code>". |
| `ScheduleEnvironment.FirstIndex` | notebooks/environment_setup.py:67 | Returns the position of the first record carrying the code. |
| `ScheduleEnvironment.NamesFromData` | notebooks/environment_setup.py:64-71 | With a name column, a known code is named after its first record. Without one, every code is named "Activity <code>". |
| `ScheduleEnvironment.ScheduleEnv.constructor` | notebooks/environment_setup.py:52-88 | There is one action per distinct code. The names and the patterns are built from the same data, and the object starts in the reset state with its invariant established. |
| `ScheduleEnvironment.ScheduleEnv.Reset` | notebooks/environment_setup.py:90-97 | Sets the pointer and the last activity to 0. Allocates an all-zero schedule of numSlots entries. Picks a day in 0..6. Returns the observation of that state. |
| `ScheduleEnvironment.ScheduleEnv.GetObservation` | notebooks/environment_setup.py:99-118 | The vector assembled with the slot-by-slot mask loop equals `Observation` of the current fields. |
| `ScheduleEnvironment.ScheduleEnv.Step` | notebooks/environment_setup.py:120-151 | The action taken is the given one when valid, and some valid action otherwise. The new state is `StepState` of the old one with that action. The reward is `CalculateReward` at the old pointer, so it lies in [0.1, 2.5]. `done` holds exactly when the new pointer has reached numSlots. The info record carries the new pointer, the day and the action taken. |

## Left out

- `render` (lines 176-191): console output only.
- The gym framework: `Discrete.contains` is modelled as the range check `0 <= action < numActivities`. The `Box` observation descriptor is reflected only in the observation length `3 + numSlots`.
- pandas mechanics (`value_counts`, `unique`, `iloc`, `Series`): the dataset is a sequence of records, and a column's presence is a boolean flag.
- The process-global random generator: the day of the week and the replacement action are nondeterministic choices within their ranges. No distribution is modelled.
- Floating-point rounding: frequencies, rewards and observation components are exact reals.
- The 32-bit width of the schedule buffer: stored actions are in `[0, numActivities)`, and the model does not bound numActivities.
- Failures the source raises rather than handles are preconditions. Stepping past the last slot is an out-of-bounds write at line 129. Stepping with an empty action space fails in `randint(0, -1)`. A zero slot count divides by zero in the first observation. A missing activity-code column fails at line 59 in the constructor.
