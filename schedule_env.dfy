/**
 * The scheduling environment: an episode fills a one-day schedule slot by
 * slot; each step writes the chosen activity into the current slot, scores it
 * against the historical time preferences and advances the write pointer.
 */
module ScheduleEnvironment {
  import opened TimePreferences

  /** The abstract state of an episode: the schedule buffer and the three scalar fields. */
  datatype EnvState = EnvState(schedule: seq<int>, currentSlot: int, lastActivity: int, dayOfWeek: int)

  /** The diagnostic dictionary a step returns. */
  datatype StepInfo = StepInfo(currentSlot: int, dayOfWeek: int, activity: int)

  /** Default number of slots: one per hour of the day. */
  const DefaultSlots: nat := 24
  /** Largest day-of-week index (days are 0..6). */
  const LastDay: int := 6
  /** Weight of the time-preference score in the reward. */
  const TimeWeight: real := 2.0
  /** The reward is never below this floor. */
  const RewardFloor: real := 0.1

  function Max(x: real, y: real): real
  {
    if x >= y then x else y
  }

  /** The membership test of the discrete action space `0 .. numActivities - 1`. */
  predicate ValidAction(action: int, numActivities: nat)
  {
    0 <= action < numActivities
  }

  /** An activity field holds either the "none" sentinel 0 or a valid action. */
  predicate ActivityOrNone(x: int, numActivities: nat)
  {
    x == 0 || ValidAction(x, numActivities)
  }

  /** The invariant every reachable state satisfies. */
  predicate StateInvariant(s: EnvState, numActivities: nat)
  {
    && 0 <= s.currentSlot <= |s.schedule|
    && 0 <= s.dayOfWeek <= LastDay
    && ActivityOrNone(s.lastActivity, numActivities)
    && forall i :: 0 <= i < |s.schedule| ==> ActivityOrNone(s.schedule[i], numActivities)
  }

  /** The episode is over once the pointer has passed the last slot. */
  predicate Done(s: EnvState)
  {
    s.currentSlot >= |s.schedule|
  }

  // ---------------------------------------------------------------------------
  // The state machine on values
  // ---------------------------------------------------------------------------

  /** The state `reset` produces for day `day`. */
  function ResetState(numSlots: nat, day: int): EnvState
  {
    EnvState(seq(numSlots, _ => 0), 0, 0, day)
  }

  /** The state after one step that writes `action`: one slot written, pointer advanced, last activity updated. */
  function StepState(s: EnvState, action: int): (t: EnvState)
    requires 0 <= s.currentSlot < |s.schedule|
    ensures |t.schedule| == |s.schedule|
    ensures t.schedule[s.currentSlot] == action
    ensures forall i :: 0 <= i < |s.schedule| && i != s.currentSlot ==> t.schedule[i] == s.schedule[i]
    ensures t.currentSlot == s.currentSlot + 1
    ensures t.lastActivity == action && t.dayOfWeek == s.dayOfWeek
  {
    EnvState(s.schedule[s.currentSlot := action], s.currentSlot + 1, action, s.dayOfWeek)
  }

  /** The state after stepping with each of `actions` in turn. */
  function Run(s: EnvState, actions: seq<int>): (t: EnvState)
    requires 0 <= s.currentSlot && s.currentSlot + |actions| <= |s.schedule|
    ensures t.currentSlot == s.currentSlot + |actions| && |t.schedule| == |s.schedule|
  {
    if actions == [] then s
    else
      var prefix := actions[..|actions| - 1];
      StepState(Run(s, prefix), actions[|actions| - 1])
  }

  /** Reset establishes the invariant, whatever the number of activities. */
  lemma ResetEstablishesInvariant(numSlots: nat, day: int, numActivities: nat)
    requires 0 <= day <= LastDay
    ensures StateInvariant(ResetState(numSlots, day), numActivities)
    ensures !Done(ResetState(numSlots, day)) <==> numSlots > 0
  {
  }

  /** A step with a valid action preserves the invariant. */
  lemma StepPreservesInvariant(s: EnvState, action: int, numActivities: nat)
    requires StateInvariant(s, numActivities)
    requires s.currentSlot < |s.schedule|
    requires ValidAction(action, numActivities)
    ensures StateInvariant(StepState(s, action), numActivities)
  {
  }

  /**
   * Running `actions` from any state writes them into consecutive slots from
   * the pointer on, leaves every other slot alone and advances the pointer by
   * their number.
   */
  lemma {:induction false} RunWrites(s: EnvState, actions: seq<int>)
    requires 0 <= s.currentSlot && s.currentSlot + |actions| <= |s.schedule|
    ensures var t := Run(s, actions);
      && t.dayOfWeek == s.dayOfWeek
      && (forall i :: 0 <= i < |s.schedule| ==>
            t.schedule[i] == if s.currentSlot <= i < s.currentSlot + |actions| then actions[i - s.currentSlot] else s.schedule[i])
      && t.lastActivity == if actions == [] then s.lastActivity else actions[|actions| - 1]
  {
    if actions != [] {
      var m := |actions| - 1;
      var prefix := actions[..m];
      RunWrites(s, prefix);
      var c := s.currentSlot;
      var u := Run(s, prefix);
      var t := Run(s, actions);
      assert t == StepState(u, actions[m]);
      forall i | 0 <= i < |s.schedule|
        ensures t.schedule[i] == if c <= i < c + |actions| then actions[i - c] else s.schedule[i]
      {
        if i != c + m {
          assert t.schedule[i] == u.schedule[i];
          if c <= i < c + m {
            assert prefix[i - c] == actions[i - c];
          }
        }
      }
    }
  }

  /**
   * An episode from reset: after k <= numSlots steps the pointer is k, the
   * schedule holds the k actions followed by zeros, and the episode is done
   * exactly when k == numSlots. So with numSlots > 0 the first numSlots - 1
   * steps report not done and the numSlots-th reports done.
   */
  lemma EpisodeFromReset(numSlots: nat, day: int, actions: seq<int>)
    requires |actions| <= numSlots
    ensures var t := Run(ResetState(numSlots, day), actions);
      && t.currentSlot == |actions|
      && t.schedule == actions + seq(numSlots - |actions|, _ => 0)
      && (Done(t) <==> |actions| == numSlots)
  {
    var s := ResetState(numSlots, day);
    var t := Run(s, actions);
    var expected := actions + seq(numSlots - |actions|, _ => 0);
    RunWrites(s, actions);
    forall i | 0 <= i < numSlots ensures t.schedule[i] == expected[i] {
    }
    assert t.schedule == expected;
  }

  /** Running valid actions from a state satisfying the invariant keeps the invariant. */
  lemma {:induction false} RunPreservesInvariant(s: EnvState, actions: seq<int>, numActivities: nat)
    requires StateInvariant(s, numActivities)
    requires s.currentSlot + |actions| <= |s.schedule|
    requires forall i :: 0 <= i < |actions| ==> ValidAction(actions[i], numActivities)
    ensures StateInvariant(Run(s, actions), numActivities)
  {
    if actions != [] {
      var m := |actions| - 1;
      RunPreservesInvariant(s, actions[..m], numActivities);
      RunWrites(s, actions[..m]);
      StepPreservesInvariant(Run(s, actions[..m]), actions[m], numActivities);
    }
  }

  // ---------------------------------------------------------------------------
  // Observation
  // ---------------------------------------------------------------------------

  /**
   * The observation vector: the normalised slot, day and last activity,
   * followed by a mask whose entry i is 1 exactly when slot i is filled.
   */
  function Observation(currentSlot: int, numSlots: nat, dayOfWeek: int, lastActivity: int, numActivities: nat): (obs: seq<real>)
    requires numSlots > 0
    ensures |obs| == 3 + numSlots
    ensures obs[0] * numSlots as real == currentSlot as real
    ensures obs[1] * LastDay as real == dayOfWeek as real
    ensures numActivities > 1 ==> obs[2] * (numActivities - 1) as real == lastActivity as real
    ensures numActivities <= 1 ==> obs[2] == 0.0
    ensures forall i :: 3 <= i < |obs| ==> obs[i] == if i - 3 < currentSlot then 1.0 else 0.0
    ensures 0 <= currentSlot <= numSlots && 0 <= dayOfWeek <= LastDay && ActivityOrNone(lastActivity, numActivities) ==>
              forall i :: 0 <= i < |obs| ==> 0.0 <= obs[i] <= 1.0
  {
    var slotNormalized := currentSlot as real / numSlots as real;
    var dayNormalized := dayOfWeek as real / LastDay as real;
    var lastActNormalized := if numActivities > 1 then lastActivity as real / (numActivities - 1) as real else 0.0;
    RatioInUnit(currentSlot, numSlots);
    RatioInUnit(dayOfWeek, LastDay);
    RatioInUnit(lastActivity, numActivities - 1);
    [slotNormalized, dayNormalized, lastActNormalized] + seq(numSlots, i => if i < currentSlot then 1.0 else 0.0)
  }

  /** A ratio x / n with 0 <= x <= n and n > 0 lies in [0, 1]. */
  lemma RatioInUnit(x: int, n: int)
    ensures 0 <= x <= n && n > 0 ==> 0.0 <= x as real / n as real <= 1.0
  {
    if 0 <= x <= n && n > 0 {
      var q := x as real / n as real;
      assert q * n as real == x as real;
    }
  }

  // ---------------------------------------------------------------------------
  // Reward
  // ---------------------------------------------------------------------------

  /**
   * The reward for writing `action` at `timeSlot`: twice the time-preference
   * score of `action` (used directly as an activity key) at that hour, plus
   * the sequence score against the previous slot when there is one, floored
   * at 0.1.
   */
  function CalculateReward(p: ActivityPatterns, schedule: seq<int>, action: int, timeSlot: int): (r: real)
    requires WellFormed(p)
    requires timeSlot <= |schedule|
    ensures r >= RewardFloor
    ensures r == Max(TimeWeight * TimePreferenceScore(p, action, timeSlot) + (if timeSlot > 0 then NeutralSequenceScore else 0.0), RewardFloor)
    ensures ValuesInUnit(p) ==> r <= TimeWeight + NeutralSequenceScore
  {
    var timePrefScore := TimePreferenceScore(p, action, timeSlot);
    var reward := timePrefScore * TimeWeight;
    var withSequence := if timeSlot > 0 then reward + SequenceScore(p, schedule[timeSlot - 1], action) else reward;
    Max(withSequence, RewardFloor)
  }

  /**
   * The reward of a step scored against the table built from `data`: the
   * action is looked up as an activity code, so an action that is not one of
   * the observed codes (or a slot outside the day) earns the 0.01 default.
   */
  lemma RewardFromHistory(data: Dataset, schedule: seq<int>, action: int, timeSlot: int)
    requires timeSlot <= |schedule|
    ensures
      var p := ActivityPatterns(data, PreferenceTable(data));
      var known := data.hasHour && data.hasActivityCode && action in Activities(data.records) && 0 <= timeSlot < Hours;
      var score := if known then Frequency(data.records, action, timeSlot) else DefaultScore;
      WellFormed(p) &&
      CalculateReward(p, schedule, action, timeSlot) == Max(TimeWeight * score + (if timeSlot > 0 then NeutralSequenceScore else 0.0), RewardFloor)
  {
    BuiltTableIsWellFormed(data);
    ScoreFromHistory(data, action, timeSlot);
  }

  // ---------------------------------------------------------------------------
  // Activity names
  // ---------------------------------------------------------------------------

  /** The character of the decimal digit `d`. */
  function DigitChar(d: nat): char
    requires d < 10
  {
    ('0' as int + d) as char
  }

  /** Decimal notation of a natural number. */
  function NatToDecimal(n: nat): (s: string)
    ensures |s| > 0
  {
    if n < 10 then [DigitChar(n)] else NatToDecimal(n / 10) + [DigitChar(n % 10)]
  }

  /** The number a string of decimal digits denotes, most significant digit first. */
  function DecimalValue(s: string): int
  {
    if s == [] then 0 else DecimalValue(s[..|s| - 1]) * 10 + (s[|s| - 1] as int - '0' as int)
  }

  /**
   * `NatToDecimal` writes only digits, with no leading zero, and reading them
   * back gives the number: the rendering inside default names is decimal
   * notation.
   */
  lemma {:induction false} NatToDecimalValue(n: nat)
    ensures forall i :: 0 <= i < |NatToDecimal(n)| ==> '0' <= NatToDecimal(n)[i] <= '9'
    ensures n > 0 ==> NatToDecimal(n)[0] != '0'
    ensures DecimalValue(NatToDecimal(n)) == n
  {
    var s := NatToDecimal(n);
    if n < 10 {
      assert s[..0] == [];
    } else {
      NatToDecimalValue(n / 10);
      assert s[..|s| - 1] == NatToDecimal(n / 10);
    }
  }

  /** Decimal notation of an integer, with a leading '-' when negative. */
  function IntToDecimal(i: int): string
  {
    if i < 0 then "-" + NatToDecimal(-i) else NatToDecimal(i)
  }

  /** The name synthesised for a code that has no recorded name. */
  function DefaultName(code: int): string
  {
    "Activity " + IntToDecimal(code)
  }

  /** Index of the first record of activity `a`. */
  function FirstIndex(rs: seq<Record>, a: int): (i: nat)
    requires a in Activities(rs)
    ensures i < |rs| && rs[i].activity == a
    ensures forall j :: 0 <= j < i ==> rs[j].activity != a
  {
    if rs[0].activity == a then 0
    else
      assert a in Activities(rs[1..]) by {
        var r :| r in rs && r.activity == a;
        assert r != rs[0];
        assert r in rs[1..];
      }
      1 + FirstIndex(rs[1..], a)
  }

  /** The code -> name map: the name on the first record of each code, or "Activity <code>" without a name column. */
  function ActivityNames(data: Dataset): map<int, string>
  {
    if data.hasActivityName then
      map a | a in Activities(data.records) :: data.records[FirstIndex(data.records, a)].name
    else
      map a | a in Activities(data.records) :: DefaultName(a)
  }

  /** Looks up the display name of a code, falling back to "Activity <code>" for unknown codes. */
  function ActivityName(names: map<int, string>, code: int): (name: string)
    ensures code in names ==> name == names[code]
    ensures code !in names ==> name == DefaultName(code)
  {
    if code in names then names[code] else DefaultName(code)
  }

  /**
   * Names from the data: with a name column, a known code is named after its
   * first record; without one, every code gets the synthesised name.
   */
  lemma NamesFromData(data: Dataset, code: int)
    ensures data.hasActivityName && code in Activities(data.records) ==>
      exists i :: 0 <= i < |data.records| && data.records[i].activity == code
        && (forall j :: 0 <= j < i ==> data.records[j].activity != code)
        && ActivityName(ActivityNames(data), code) == data.records[i].name
    ensures !data.hasActivityName ==> ActivityName(ActivityNames(data), code) == DefaultName(code)
  {
    if data.hasActivityName && code in Activities(data.records) {
      var i := FirstIndex(data.records, code);
      assert ActivityName(ActivityNames(data), code) == data.records[i].name;
    }
  }

  // ---------------------------------------------------------------------------
  // The environment object
  // ---------------------------------------------------------------------------

  class ScheduleEnv {
    const data: Dataset
    const numSlots: nat
    const numActivities: nat
    const activityNames: map<int, string>
    const patterns: ActivityPatterns

    var schedule: array<int>
    var currentSlot: int
    var lastActivity: int
    var dayOfWeek: int

    /** The parts of the object fixed at construction. */
    ghost predicate Configured()
    {
      numSlots > 0 && WellFormed(patterns) && ValuesInUnit(patterns)
    }

    ghost function State(): EnvState
      reads this, schedule
    {
      EnvState(schedule[..], currentSlot, lastActivity, dayOfWeek)
    }

    ghost predicate Valid()
      reads this, schedule
    {
      Configured() && schedule.Length == numSlots && StateInvariant(State(), numActivities)
    }

    /**
     * Builds the environment from the data: the action space has one action
     * per distinct activity code, the patterns are built from the same data,
     * and the episode is reset.
     */
    constructor (data: Dataset, numSlots: nat := DefaultSlots)
      requires data.hasActivityCode
      requires numSlots > 0
      ensures Valid() && fresh(schedule)
      ensures this.data == data && this.numSlots == numSlots
      ensures numActivities == |UniqueActivities(data.records)|
      ensures activityNames == ActivityNames(data)
      ensures patterns.timePrefs == PreferenceTable(data)
      ensures State() == ResetState(numSlots, dayOfWeek)
    {
      this.data := data;
      this.numSlots := numSlots;
      numActivities := |UniqueActivities(data.records)|;
      activityNames := ActivityNames(data);
      var p := InitializePatterns(data);
      BuiltTableIsWellFormed(data);
      patterns := p;
      schedule := new int[numSlots];
      new;
      var _ := Reset();
    }

    /** Starts a new episode on a random day of the week and returns its first observation. */
    method Reset() returns (obs: seq<real>)
      requires Configured()
      modifies this
      ensures Valid() && fresh(schedule)
      ensures 0 <= dayOfWeek <= LastDay
      ensures State() == ResetState(numSlots, dayOfWeek)
      ensures obs == Observation(0, numSlots, dayOfWeek, 0, numActivities)
    {
      currentSlot := 0;
      schedule := new int[numSlots](_ => 0);
      var day :| 0 <= day <= LastDay;
      dayOfWeek := day;
      lastActivity := 0;
      assert schedule[..] == seq(numSlots, _ => 0);
      obs := GetObservation();
    }

    /** The observation of the current state, with the filled-slot mask built slot by slot. */
    method GetObservation() returns (obs: seq<real>)
      requires numSlots > 0
      requires 0 <= currentSlot <= numSlots
      ensures obs == Observation(currentSlot, numSlots, dayOfWeek, lastActivity, numActivities)
    {
      var slotNormalized := currentSlot as real / numSlots as real;
      var dayNormalized := dayOfWeek as real / LastDay as real;
      var lastActNormalized := if numActivities > 1 then lastActivity as real / (numActivities - 1) as real else 0.0;
      var planned := new real[numSlots](_ => 0.0);
      for i := 0 to currentSlot
        invariant forall j :: 0 <= j < numSlots ==> planned[j] == if j < i then 1.0 else 0.0
      {
        planned[i] := 1.0;
      }
      obs := [slotNormalized, dayNormalized, lastActNormalized] + planned[..];
    }

    /**
     * Writes one activity into the current slot and advances the episode. An
     * action outside the action space is replaced by an arbitrary valid one.
     */
    method Step(action: int) returns (obs: seq<real>, reward: real, done: bool, info: StepInfo)
      requires Valid()
      requires currentSlot < numSlots
      requires numActivities > 0
      modifies this, schedule
      ensures Valid() && schedule == old(schedule)
      ensures ValidAction(info.activity, numActivities)
      ensures ValidAction(action, numActivities) ==> info.activity == action
      ensures State() == StepState(old(State()), info.activity)
      ensures reward == CalculateReward(patterns, old(schedule[..]), info.activity, old(currentSlot))
      ensures RewardFloor <= reward <= TimeWeight + NeutralSequenceScore
      ensures done <==> Done(State())
      ensures obs == Observation(currentSlot, numSlots, dayOfWeek, lastActivity, numActivities)
      ensures info.currentSlot == currentSlot && info.dayOfWeek == dayOfWeek
    {
      var act := action;
      if !ValidAction(action, numActivities) {
        act :| ValidAction(act, numActivities);
      }
      ghost var before := schedule[..];
      schedule[currentSlot] := act;
      assert schedule[..] == before[currentSlot := act];
      reward := CalculateReward(patterns, schedule[..], act, currentSlot);
      lastActivity := act;
      currentSlot := currentSlot + 1;
      done := currentSlot >= numSlots;
      obs := GetObservation();
      info := StepInfo(currentSlot, dayOfWeek, act);
    }
  }
}
