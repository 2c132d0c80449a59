/** The habit service: completions are recorded per day, and marking a day
    complete or incomplete recomputes the streak by walking back one day
    at a time from that day while the days are complete. Days are whole
    numbers (consecutive days differ by 1); the current day and its weekday
    (0 for Sunday) are parameters. The JSON file behind `db.read` /
    `db.write` is the field `habits` of `HabitStore`. */
module HabitService {
  import Seqs

  datatype Habit = Habit(
    id: string,
    name: string,
    createdAt: int,
    updatedAt: int,
    streak: int,
    bestStreak: int,
    totalCompletions: int,
    targetFrequency: int,
    tags: seq<string>,
    completions: map<int, bool>,
    weeklyProgress: seq<bool>)

  /** `Partial<Habit>` as passed to `update`. */
  datatype HabitPatch = HabitPatch(
    id: Seqs.Option<string>,
    name: Seqs.Option<string>,
    createdAt: Seqs.Option<int>,
    streak: Seqs.Option<int>,
    bestStreak: Seqs.Option<int>,
    totalCompletions: Seqs.Option<int>,
    targetFrequency: Seqs.Option<int>,
    tags: Seqs.Option<seq<string>>,
    completions: Seqs.Option<map<int, bool>>,
    weeklyProgress: Seqs.Option<seq<bool>>)

  /** The outcome of `update`: no habit with the id, a merged habit that
      the schema refuses (the promise rejects), or the stored habit. */
  datatype UpdateResult = NotFound | Invalid | Updated(habit: Habit)

  /** `completions[day]` is truthy. */
  predicate Done(c: map<int, bool>, day: int) {
    day in c && c[day]
  }

  /** The day `k` days before `day` is done. */
  predicate DoneBack(c: map<int, bool>, day: int, k: int) {
    Done(c, day - k)
  }

  /** The recorded days up to `day`: the walk's termination measure. */
  function KeysUpTo(c: map<int, bool>, day: int): set<int> {
    set k | k in c.Keys && k <= day
  }

  /** The length of the run of done days that ends at `day`: every day of
      the run is done and the day before it is not. */
  function RunLength(c: map<int, bool>, day: int): (n: nat)
    ensures forall k :: 0 <= k < n ==> DoneBack(c, day, k)
    ensures !Done(c, day - n)
    decreases |KeysUpTo(c, day)|
  {
    if Done(c, day) then
      assert KeysUpTo(c, day) == KeysUpTo(c, day - 1) + {day};
      var rest := RunLength(c, day - 1);
      assert forall k :: 0 <= k < 1 + rest ==> DoneBack(c, day, k) by {
        forall k | 0 <= k < 1 + rest
          ensures DoneBack(c, day, k)
        {
          if k > 0 {
            assert DoneBack(c, day - 1, k - 1);
          }
        }
      }
      1 + rest
    else 0
  }

  /** The walk of `markComplete` / `markIncomplete`: count and step back
      while the day is done. */
  method StreakEndingAt(c: map<int, bool>, date: int) returns (streak: nat)
    ensures streak == RunLength(c, date)
  {
    streak := 0;
    var checkDate := date;
    while true
      invariant checkDate == date - streak
      invariant RunLength(c, date) == streak + RunLength(c, checkDate)
      decreases |KeysUpTo(c, checkDate)|
    {
      if Done(c, checkDate) {
        assert KeysUpTo(c, checkDate) == KeysUpTo(c, checkDate - 1) + {checkDate};
        streak := streak + 1;
        checkDate := checkDate - 1;
      } else {
        break;
      }
    }
  }

  /** A change to a later day does not affect a run that ends earlier. */
  lemma {:induction false} RunIgnoresLaterDay(c: map<int, bool>, day: int, later: int, v: bool)
    requires later > day
    ensures RunLength(c[later := v], day) == RunLength(c, day)
    decreases |KeysUpTo(c, day)|
  {
    if Done(c, day) {
      assert KeysUpTo(c, day) == KeysUpTo(c, day - 1) + {day};
      RunIgnoresLaterDay(c, day - 1, later, v);
    }
  }

  /** Completing a day extends the run that ended the day before by one. */
  lemma CompletingExtendsRun(c: map<int, bool>, date: int)
    ensures RunLength(c[date := true], date) == 1 + RunLength(c, date - 1)
  {
    RunIgnoresLaterDay(c, date - 1, date, true);
  }

  /** `calculateCurrentWeekProgress`: seven flags, Sunday to Saturday of
      the current week; flag `i` says whether that day is done. */
  method CalculateCurrentWeekProgress(c: map<int, bool>, today: int, weekday: int) returns (week: seq<bool>)
    requires 0 <= weekday < 7
    ensures |week| == 7
    ensures forall i :: 0 <= i < 7 ==> week[i] == Done(c, today - weekday + i)
    ensures week[weekday] == Done(c, today)
  {
    var progress := new bool[7](_ => false);
    for dayIndex := 0 to 7
      invariant forall i :: 0 <= i < dayIndex ==> progress[i] == Done(c, today - weekday + i)
    {
      progress[dayIndex] := Done(c, today - weekday + dayIndex);
    }
    week := progress[..];
  }

  /** `getHabitsForDate`: the habits done on the day, in stored order. */
  function GetHabitsForDate(habits: seq<Habit>, date: int): (r: seq<Habit>)
    ensures Seqs.IsSubseq(r, habits)
    ensures forall h :: h in r <==> h in habits && Done(h.completions, date)
    ensures forall h :: h in habits ==> multiset(r)[h] == if Done(h.completions, date) then multiset(habits)[h] else 0
  {
    Seqs.Filter(habits, (h: Habit) => Done(h.completions, date))
  }

  /** `{ ...habit, ...updates, updatedAt: now }`: a field the patch
      supplies wins, a missing one keeps the habit's value, and `updatedAt`
      is always the current time. */
  function Merge(h: Habit, p: HabitPatch, now: int): (r: Habit)
    ensures r.updatedAt == now
    ensures (p.id.Some? ==> r.id == p.id.value) && (p.id.None? ==> r.id == h.id)
    ensures (p.name.Some? ==> r.name == p.name.value) && (p.name.None? ==> r.name == h.name)
    ensures (p.createdAt.Some? ==> r.createdAt == p.createdAt.value) && (p.createdAt.None? ==> r.createdAt == h.createdAt)
    ensures (p.streak.Some? ==> r.streak == p.streak.value) && (p.streak.None? ==> r.streak == h.streak)
    ensures (p.bestStreak.Some? ==> r.bestStreak == p.bestStreak.value) && (p.bestStreak.None? ==> r.bestStreak == h.bestStreak)
    ensures (p.totalCompletions.Some? ==> r.totalCompletions == p.totalCompletions.value) && (p.totalCompletions.None? ==> r.totalCompletions == h.totalCompletions)
    ensures (p.targetFrequency.Some? ==> r.targetFrequency == p.targetFrequency.value) && (p.targetFrequency.None? ==> r.targetFrequency == h.targetFrequency)
    ensures (p.tags.Some? ==> r.tags == p.tags.value) && (p.tags.None? ==> r.tags == h.tags)
    ensures (p.completions.Some? ==> r.completions == p.completions.value) && (p.completions.None? ==> r.completions == h.completions)
    ensures (p.weeklyProgress.Some? ==> r.weeklyProgress == p.weeklyProgress.value) && (p.weeklyProgress.None? ==> r.weeklyProgress == h.weeklyProgress)
  {
    h.(id := Seqs.Or(p.id, h.id), name := Seqs.Or(p.name, h.name), createdAt := Seqs.Or(p.createdAt, h.createdAt),
       streak := Seqs.Or(p.streak, h.streak), bestStreak := Seqs.Or(p.bestStreak, h.bestStreak),
       totalCompletions := Seqs.Or(p.totalCompletions, h.totalCompletions),
       targetFrequency := Seqs.Or(p.targetFrequency, h.targetFrequency),
       tags := Seqs.Or(p.tags, h.tags), completions := Seqs.Or(p.completions, h.completions),
       weeklyProgress := Seqs.Or(p.weeklyProgress, h.weeklyProgress), updatedAt := now)
  }

  /** The part of `HabitSchema` a merge can break: exactly seven weekly flags. */
  predicate SchemaValid(h: Habit) {
    |h.weeklyProgress| == 7
  }

  /** `habits.findIndex(h => h.id === id)`. */
  function IndexOfId(habits: seq<Habit>, id: string): (r: int)
    ensures -1 <= r < |habits|
    ensures 0 <= r ==> habits[r].id == id && forall j :: 0 <= j < r ==> habits[j].id != id
    ensures r == -1 <==> forall j :: 0 <= j < |habits| ==> habits[j].id != id
  {
    Seqs.FindIndex(habits, (h: Habit) => h.id == id)
  }

  function Max(a: int, b: int): (r: int)
    ensures r >= a && r >= b && (r == a || r == b)
  {
    if a >= b then a else b
  }

  class HabitStore {
    var habits: seq<Habit>

    constructor(initial: seq<Habit>)
      ensures habits == initial
    {
      habits := initial;
    }

    /** `update`: nothing for an unknown id; a merge the schema refuses
        leaves the list as it was; otherwise the first habit with the id is
        replaced by the merge and nothing else changes. */
    method Update(id: string, p: HabitPatch, now: int) returns (r: UpdateResult)
      modifies this
      ensures var idx := IndexOfId(old(habits), id);
        if idx == -1 then r == NotFound && habits == old(habits)
        else if !SchemaValid(Merge(old(habits)[idx], p, now)) then r == Invalid && habits == old(habits)
        else r == Updated(Merge(old(habits)[idx], p, now)) && habits == old(habits)[idx := r.habit]
    {
      var idx := IndexOfId(habits, id);
      if idx == -1 {
        return NotFound;
      }
      var updated := Merge(habits[idx], p, now);
      if !SchemaValid(updated) {
        return Invalid;
      }
      habits := habits[idx := updated];
      r := Updated(updated);
    }

    /** `delete`: drops every habit with the id and reports whether the
        list got shorter, which is exactly whether some habit had the id. */
    method Delete(id: string) returns (removed: bool)
      modifies this
      ensures habits == Seqs.Filter(old(habits), (h: Habit) => h.id != id)
      ensures removed <==> exists j :: 0 <= j < |old(habits)| && old(habits)[j].id == id
    {
      var filtered := Seqs.Filter(habits, (h: Habit) => h.id != id);
      Seqs.FilterShorter(habits, (h: Habit) => h.id != id);
      removed := |filtered| < |habits|;
      if removed {
        var x :| x in habits && x.id == id;
        var j :| 0 <= j < |habits| && habits[j] == x;
      } else {
        forall j | 0 <= j < |habits|
          ensures habits[j].id != id
        {
          assert habits[j] in habits;
        }
      }
      habits := filtered;
    }

    /** `markComplete`: records the day as done, sets the streak to the run
        ending at that day, raises the best streak to it if needed, counts
        one more completion (even when the day was already done) and
        recomputes the week's flags. */
    method MarkComplete(id: string, date: int, today: int, weekday: int, now: int) returns (r: Seqs.Option<Habit>)
      requires 0 <= weekday < 7
      modifies this
      ensures var idx := IndexOfId(old(habits), id);
        if idx == -1 then r.None? && habits == old(habits)
        else
          var h := old(habits)[idx];
          var c := h.completions[date := true];
          var streak := RunLength(c, date);
          r.Some? && habits == old(habits)[idx := r.value]
          && r.value == h.(completions := c, streak := streak, bestStreak := Max(h.bestStreak, streak),
               totalCompletions := h.totalCompletions + 1, weeklyProgress := r.value.weeklyProgress,
               updatedAt := now)
          && streak == 1 + RunLength(h.completions, date - 1)
          && |r.value.weeklyProgress| == 7
          && (forall i :: 0 <= i < 7 ==> r.value.weeklyProgress[i] == Done(c, today - weekday + i))
    {
      var idx := IndexOfId(habits, id);
      if idx == -1 {
        return Seqs.None;
      }
      var habit := habits[idx];
      var newCompletions := habit.completions[date := true];
      var streak := StreakEndingAt(newCompletions, date);
      CompletingExtendsRun(habit.completions, date);
      var weeklyProgress := CalculateCurrentWeekProgress(newCompletions, today, weekday);
      var patch := HabitPatch(Seqs.None, Seqs.None, Seqs.None, Seqs.Some(streak), Seqs.Some(Max(habit.bestStreak, streak)),
        Seqs.Some(habit.totalCompletions + 1), Seqs.None, Seqs.None, Seqs.Some(newCompletions),
        Seqs.Some(weeklyProgress));
      var updated := Update(id, patch, now);
      r := Seqs.Some(updated.habit);
    }

    /** `markIncomplete`: removes the day's record. The walk starts at the
        removed day, so the streak becomes 0; one completion fewer is
        counted, never below 0; the best streak is kept. */
    method MarkIncomplete(id: string, date: int, today: int, weekday: int, now: int) returns (r: Seqs.Option<Habit>)
      requires 0 <= weekday < 7
      modifies this
      ensures var idx := IndexOfId(old(habits), id);
        if idx == -1 then r.None? && habits == old(habits)
        else
          var h := old(habits)[idx];
          var c := h.completions - {date};
          r.Some? && habits == old(habits)[idx := r.value]
          && r.value == h.(completions := c, streak := 0, totalCompletions := Max(0, h.totalCompletions - 1),
               weeklyProgress := r.value.weeklyProgress, updatedAt := now)
          && |r.value.weeklyProgress| == 7
          && (forall i :: 0 <= i < 7 ==> r.value.weeklyProgress[i] == Done(c, today - weekday + i))
    {
      var idx := IndexOfId(habits, id);
      if idx == -1 {
        return Seqs.None;
      }
      var habit := habits[idx];
      var newCompletions := habit.completions - {date};
      var streak := StreakEndingAt(newCompletions, date);
      var weeklyProgress := CalculateCurrentWeekProgress(newCompletions, today, weekday);
      var patch := HabitPatch(Seqs.None, Seqs.None, Seqs.None, Seqs.Some(streak), Seqs.None,
        Seqs.Some(Max(0, habit.totalCompletions - 1)), Seqs.None, Seqs.None, Seqs.Some(newCompletions),
        Seqs.Some(weeklyProgress));
      var updated := Update(id, patch, now);
      r := Seqs.Some(updated.habit);
    }
  }
}
