/** The diary statistics: how many entries carry each mood, and the
    current and best writing streaks. Entries are given as input (the
    database query that fetches them is not part of this model); each
    carries its day as a whole number and an optional mood. */
module DiaryStats {
  import Seqs

  datatype Mood = Great | Good | Neutral | Bad | Terrible

  datatype DayEntry = DayEntry(date: int, mood: Seqs.Option<Mood>)

  // ----- Mood counts -----

  /** The entries, among `entries`, whose mood is `m`. */
  function CountMood(entries: seq<DayEntry>, m: Mood): nat {
    if entries == [] then 0
    else CountMood(entries[..|entries| - 1], m) + (if entries[|entries| - 1].mood == Seqs.Some(m) then 1 else 0)
  }

  /** The entries that carry a mood at all. */
  function CountWithMood(entries: seq<DayEntry>): nat {
    if entries == [] then 0
    else CountWithMood(entries[..|entries| - 1]) + (if entries[|entries| - 1].mood.Some? then 1 else 0)
  }

  const AllMoods: set<Mood> := {Great, Good, Neutral, Bad, Terrible}

  /** `getMoodStats`: every mood starts at 0 and each entry with a mood
      adds one to it. */
  method MoodStats(entries: seq<DayEntry>) returns (counts: map<Mood, nat>)
    ensures counts.Keys == AllMoods
    ensures forall m :: m in counts ==> counts[m] == CountMood(entries, m)
  {
    counts := map[Great := 0, Good := 0, Neutral := 0, Bad := 0, Terrible := 0];
    for i := 0 to |entries|
      invariant counts.Keys == AllMoods
      invariant forall m :: m in counts ==> counts[m] == CountMood(entries[..i], m)
    {
      assert entries[..i + 1][..i] == entries[..i];
      var mood := entries[i].mood;
      if mood.Some? {
        EveryMood(mood.value);
        counts := counts[mood.value := counts[mood.value] + 1];
      }
    }
    assert entries[..|entries|] == entries;
  }

  lemma EveryMood(m: Mood)
    ensures m in AllMoods
  {
    match m
    case Great =>
    case Good =>
    case Neutral =>
    case Bad =>
    case Terrible =>
  }

  /** The five counts add up to the number of entries that have a mood. */
  lemma {:induction false} MoodCountsSum(entries: seq<DayEntry>)
    ensures CountMood(entries, Great) + CountMood(entries, Good) + CountMood(entries, Neutral)
      + CountMood(entries, Bad) + CountMood(entries, Terrible) == CountWithMood(entries)
    decreases |entries|
  {
    if entries != [] {
      MoodCountsSum(entries[..|entries| - 1]);
      match entries[|entries| - 1].mood
      case None =>
      case Some(m) =>
        match m
        case Great =>
        case Good =>
        case Neutral =>
        case Bad =>
        case Terrible =>
    }
  }

  // ----- Current streak -----

  /** The days on which some entry is dated. */
  function DateSet(entries: seq<DayEntry>): (r: set<int>)
    ensures forall day :: day in r <==> exists i | 0 <= i < |entries| :: entries[i].date == day
  {
    set i | 0 <= i < |entries| :: entries[i].date
  }

  /** Some entry is dated `day` (`entries.find(e => e.date === day)`). */
  predicate HasEntryOn(entries: seq<DayEntry>, day: int) {
    day in DateSet(entries)
  }

  /** The day `k` days before `day` has an entry. */
  predicate HasEntryBack(entries: seq<DayEntry>, day: int, k: int) {
    HasEntryOn(entries, day - k)
  }

  /** The dates of entries up to `day`: the walk's termination measure. */
  function DatesUpTo(entries: seq<DayEntry>, day: int): set<int> {
    set d | d in DateSet(entries) && d <= day
  }

  lemma DatesUpToStep(entries: seq<DayEntry>, day: int)
    requires HasEntryOn(entries, day)
    ensures DatesUpTo(entries, day) == DatesUpTo(entries, day - 1) + {day}
  {
  }

  /** The number of consecutive days, ending at `day`, that all have an
      entry: each of them has one and the day before them has none. */
  function DaysRun(entries: seq<DayEntry>, day: int): (n: nat)
    ensures forall k :: 0 <= k < n ==> HasEntryBack(entries, day, k)
    ensures !HasEntryOn(entries, day - n)
    decreases |DatesUpTo(entries, day)|
  {
    if HasEntryOn(entries, day) then
      DatesUpToStep(entries, day);
      var rest := DaysRun(entries, day - 1);
      assert forall k :: 0 <= k < 1 + rest ==> HasEntryBack(entries, day, k) by {
        forall k | 0 <= k < 1 + rest
          ensures HasEntryBack(entries, day, k)
        {
          if k > 0 {
            assert HasEntryBack(entries, day - 1, k - 1);
          }
        }
      }
      1 + rest
    else 0
  }

  // ----- Sorting by date -----

  predicate Sorted(s: seq<int>) {
    forall i, j :: 0 <= i < j < |s| ==> s[i] <= s[j]
  }

  /** Places `x` before the first element not smaller than it. */
  function Insert(x: int, s: seq<int>): (r: seq<int>)
    ensures multiset(r) == multiset(s) + multiset{x}
    ensures |r| == |s| + 1
    decreases |s|
  {
    if s == [] then [x]
    else if x <= s[0] then [x] + s
    else
      assert s == [s[0]] + s[1..];
      [s[0]] + Insert(x, s[1..])
  }

  lemma SortedCons(h: int, t: seq<int>)
    requires Sorted(t)
    requires forall i :: 0 <= i < |t| ==> h <= t[i]
    ensures Sorted([h] + t)
  {
    var r := [h] + t;
    assert forall i :: 0 < i < |r| ==> r[i] == t[i - 1];
  }

  lemma {:induction false} InsertSorted(x: int, s: seq<int>)
    requires Sorted(s)
    ensures Sorted(Insert(x, s))
    decreases |s|
  {
    if s != [] && x > s[0] {
      var tail := s[1..];
      var rest := Insert(x, tail);
      InsertSorted(x, tail);
      forall i | 0 <= i < |rest|
        ensures s[0] <= rest[i]
      {
        assert rest[i] in multiset(rest);
        if rest[i] != x {
          assert rest[i] in multiset(tail);
          var j :| 0 <= j < |tail| && tail[j] == rest[i];
          assert s[j + 1] == rest[i];
        }
      }
      SortedCons(s[0], rest);
    } else if s != [] {
      SortedCons(x, s);
    }
  }

  /** The library sort applied to the dates: ascending, same dates. */
  function SortDates(s: seq<int>): (r: seq<int>)
    ensures Sorted(r)
    ensures multiset(r) == multiset(s)
    ensures |r| == |s|
    decreases |s|
  {
    if s == [] then []
    else
      assert s == [s[0]] + s[1..];
      InsertSorted(s[0], SortDates(s[1..]));
      Insert(s[0], SortDates(s[1..]))
  }

  function Dates(entries: seq<DayEntry>): (r: seq<int>)
    ensures |r| == |entries|
    ensures forall i :: 0 <= i < |r| ==> r[i] == entries[i].date
  {
    seq(|entries|, i requires 0 <= i < |entries| => entries[i].date)
  }

  // ----- Best streak -----

  /** Between positions `a` and `b` of the sorted dates, every date is the
      day after the one before it. */
  predicate Consecutive(s: seq<int>, a: int, b: int)
    requires 0 <= a <= b <= |s|
  {
    forall k :: a < k < b ==> s[k] == s[k - 1] + 1
  }

  /** The length of the longest consecutive stretch that ends at position
      `j`: it starts where the previous gap is not exactly one day. */
  function RunEndingAt(s: seq<int>, j: nat): (r: nat)
    requires j < |s|
    ensures 1 <= r <= j + 1
    ensures Consecutive(s, j + 1 - r, j + 1)
    ensures j + 1 - r == 0 || s[j + 1 - r] != s[j - r] + 1
  {
    if j == 0 || s[j] != s[j - 1] + 1 then 1
    else RunEndingAt(s, j - 1) + 1
  }

  /** The longest of the stretches ending before position `n`. */
  function LongestUpTo(s: seq<int>, n: nat): nat
    requires n <= |s|
  {
    if n == 0 then 0
    else
      var prev := LongestUpTo(s, n - 1);
      var here := RunEndingAt(s, n - 1);
      if prev >= here then prev else here
  }

  /** A stretch of consecutive positions inside a longer one. */
  lemma ConsecutiveWithin(s: seq<int>, a: int, b: int, k: int)
    requires 0 <= a <= b <= |s| && Consecutive(s, a, b) && a < k < b
    ensures s[k] == s[k - 1] + 1
  {
  }

  /** `LongestUpTo` is the length of the longest consecutive stretch: some
      stretch has that length, and no stretch is longer. */
  lemma {:induction false} LongestIsLongest(s: seq<int>, n: nat)
    requires n <= |s|
    ensures n > 0 ==> exists a, b :: 0 <= a <= b <= n && b - a == LongestUpTo(s, n) && Consecutive(s, a, b)
    ensures forall a, b :: 0 <= a <= b <= n && Consecutive(s, a, b) ==> b - a <= LongestUpTo(s, n)
  {
    if n > 0 {
      LongestIsLongest(s, n - 1);
      var best := LongestUpTo(s, n);
      var here := RunEndingAt(s, n - 1);
      if LongestUpTo(s, n - 1) < here {
        assert Consecutive(s, n - here, n);
      } else {
        var a, b :| 0 <= a <= b <= n - 1 && b - a == best && Consecutive(s, a, b);
      }
      forall a, b | 0 <= a <= b <= n && Consecutive(s, a, b)
        ensures b - a <= best
      {
        if b == n && a < n - here {
          // The stretch would cross the gap where the run ending at n - 1 starts.
          ConsecutiveWithin(s, a, b, n - here);
          assert false;
        }
        if b < n {
          assert b - a <= LongestUpTo(s, n - 1);
        }
      }
    }
  }

  /** A day with an entry extends the run that ends the day before, and
      leaves fewer dates to walk over. */
  lemma RunStep(entries: seq<DayEntry>, day: int)
    requires HasEntryOn(entries, day)
    ensures DaysRun(entries, day) == 1 + DaysRun(entries, day - 1)
    ensures |DatesUpTo(entries, day - 1)| < |DatesUpTo(entries, day)|
  {
    DatesUpToStep(entries, day);
  }

  /** The walk back from today: 0 when today has no entry, otherwise one
      for today and one more for each earlier day that has an entry. */
  method CurrentStreak(entries: seq<DayEntry>, today: int) returns (currentStreak: nat)
    ensures currentStreak == DaysRun(entries, today)
  {
    currentStreak := 0;
    if HasEntryOn(entries, today) {
      currentStreak := 1;
      var checkDate := today - 1;
      RunStep(entries, today);
      while true
        invariant checkDate == today - currentStreak
        invariant DaysRun(entries, today) == currentStreak + DaysRun(entries, checkDate)
        decreases |DatesUpTo(entries, checkDate)|
      {
        if HasEntryOn(entries, checkDate) {
          RunStep(entries, checkDate);
          currentStreak := currentStreak + 1;
          checkDate := checkDate - 1;
        } else {
          break;
        }
      }
    }
  }

  /** One step of the pass: the stretch ending at `i` extends the one
      ending at `i - 1` exactly when `s[i]` is the next day. */
  lemma RunStepAt(s: seq<int>, i: nat)
    requires 1 <= i < |s|
    ensures RunEndingAt(s, i) == if s[i] - s[i - 1] == 1 then RunEndingAt(s, i - 1) + 1 else 1
    ensures LongestUpTo(s, i + 1) == Longer(LongestUpTo(s, i), RunEndingAt(s, i))
  {
  }

  /** The pass over the sorted dates: a gap of exactly one day extends the
      running stretch, any other gap closes it and starts a new one. */
  method BestRun(sorted: seq<int>) returns (best: nat)
    requires |sorted| > 0
    ensures best == LongestUpTo(sorted, |sorted|)
  {
    best := 0;
    var temp := 1;
    for i := 1 to |sorted|
      invariant temp == RunEndingAt(sorted, i - 1)
      invariant LongestUpTo(sorted, i) == if best >= temp then best else temp
    {
      RunStepAt(sorted, i);
      var dayDiff := sorted[i] - sorted[i - 1];
      if dayDiff == 1 {
        temp := temp + 1;
      } else {
        best := if best >= temp then best else temp;
        temp := 1;
      }
    }
    best := if best >= temp then best else temp;
  }

  /** `getStreakInfo`. With no entries both streaks are 0. Otherwise the
      current streak is the run of days with an entry ending today (0 when
      today has none); the best streak is the longest stretch of sorted
      dates in which each is the day after the previous one (a repeated
      date breaks the stretch), or the current streak if that is longer. */
  method GetStreakInfo(entries: seq<DayEntry>, today: int) returns (currentStreak: nat, bestStreak: nat)
    ensures entries == [] ==> currentStreak == 0 && bestStreak == 0
    ensures entries != [] ==> currentStreak == DaysRun(entries, today)
    ensures entries != [] ==> bestStreak == Longer(LongestUpTo(SortDates(Dates(entries)), |entries|), currentStreak)
    ensures bestStreak >= currentStreak
    ensures entries != [] ==> bestStreak >= 1
  {
    if |entries| == 0 {
      return 0, 0;
    }
    var sortedEntries := SortDates(Dates(entries));
    currentStreak := CurrentStreak(entries, today);
    var best := BestRun(sortedEntries);
    bestStreak := Longer(best, currentStreak);
  }

  function Longer(a: nat, b: nat): nat {
    if a >= b then a else b
  }
}
