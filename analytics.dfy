/** The `useAnalytics` hook: the achievements unlocked by the user's
    statistics and the insight lines computed from them. */
module Analytics {
  import opened Wrappers
  import opened Seqs
  import opened Text
  import Progress

  /** Thresholds of the achievements with a progress bar. */
  const WatchGoal: nat := 600
  const FavoritesGoal: nat := 5
  const CompletedGoal: nat := 10
  const StartedGoal: nat := 3

  datatype Achievement = Achievement(
    id: string,
    title: string,
    unlocked: bool,
    progress: Option<nat>,
    maxProgress: Option<nat>)

  /** The computed part of the analytics; the weekly, category and streak
      figures are constants. */
  datatype AnalyticsData = AnalyticsData(totalMinutes: nat, achievements: seq<Achievement>, insights: seq<string>)

  /** `stats?.field || 0`. */
  function Metric(stats: Option<Progress.Stats>, field: Progress.Stats -> nat): nat {
    if stats.Some? then field(stats.value) else 0
  }

  /** `Math.min(x, max)`. */
  function Capped(x: nat, max: nat): (r: nat)
    ensures r <= max && r <= x && (r == x || r == max)
  {
    if x < max then x else max
  }

  /** An achievement with a progress bar towards `max`. */
  function Goal(id: string, title: string, x: nat, max: nat): (a: Achievement)
    ensures a.progress == Some(Capped(x, max)) && a.maxProgress == Some(max)
    ensures a.unlocked <==> x >= max
  {
    Achievement(id, title, x >= max, Some(Capped(x, max)), Some(max))
  }

  /** Unlocked exactly when the bar is full. */
  lemma GoalFull(id: string, title: string, x: nat, max: nat)
    ensures Goal(id, title, x, max).unlocked <==> Goal(id, title, x, max).progress == Some(max)
  {
  }

  function Achievements(stats: Option<Progress.Stats>): (r: seq<Achievement>)
    ensures |r| == 6
  {
    var completed := Metric(stats, (s: Progress.Stats) => s.completedCourses);
    [Achievement("1", "Primeiro Passo", completed > 0, None, None),
     Goal("2", "Estudante Dedicado", Metric(stats, (s: Progress.Stats) => s.totalWatchTime), WatchGoal),
     Goal("3", "Colecionador", Metric(stats, (s: Progress.Stats) => s.favorites), FavoritesGoal),
     Goal("4", "Mestre", completed, CompletedGoal),
     Goal("5", "Explorador", Metric(stats, (s: Progress.Stats) => s.totalCourses), StartedGoal),
     Achievement("6", "Velocista", false, None, None)]
  }

  /** Which achievement unlocks on which statistic; "Velocista" never does. */
  lemma UnlockRules(stats: Progress.Stats)
    ensures var a := Achievements(Some(stats));
      (a[0].unlocked <==> stats.completedCourses > 0) &&
      (a[1].unlocked <==> stats.totalWatchTime >= WatchGoal) &&
      (a[2].unlocked <==> stats.favorites >= FavoritesGoal) &&
      (a[3].unlocked <==> stats.completedCourses >= CompletedGoal) &&
      (a[4].unlocked <==> stats.totalCourses >= StartedGoal) &&
      !a[5].unlocked
  {
  }

  /** Every bar, statistic or not, stays within its maximum. */
  lemma ProgressBounded(stats: Option<Progress.Stats>, k: nat)
    requires k < 6
    ensures var a := Achievements(stats)[k];
      a.progress.Some? ==> a.maxProgress.Some? && a.progress.value <= a.maxProgress.value
  {
  }

  function UnlockedCount(achievements: seq<Achievement>): (n: nat)
    ensures n <= |achievements|
  {
    |Filter(achievements, (a: Achievement) => a.unlocked)|
  }

  /** Without statistics nothing is unlocked. */
  lemma NoStatsNothingUnlocked()
    ensures UnlockedCount(Achievements(None)) == 0
  {
    var a := Achievements(None);
    assert forall k :: 0 <= k < |a| ==> !a[k].unlocked;
    FilterNone(a, (x: Achievement) => x.unlocked);
  }

  lemma {:induction false} FilterNone(s: seq<Achievement>, p: Achievement -> bool)
    requires forall k :: 0 <= k < |s| ==> !p(s[k])
    ensures Filter(s, p) == []
  {
    if s != [] {
      FilterNone(s[1..], p);
    }
  }

  /** At most five of the six can be unlocked. */
  lemma AtMostFiveUnlocked(stats: Option<Progress.Stats>)
    ensures UnlockedCount(Achievements(stats)) <= 5
  {
    var a := Achievements(stats);
    var p := (x: Achievement) => x.unlocked;
    assert a == a[..5] + [a[5]];
    FilterAppend(a[..5], [a[5]], p);
    assert Filter([a[5]], p) == [];
  }

  const HoursLead: string := "Você estudou "
  const HoursTail: string := "h esta semana. Continue assim!"
  const DaysLine: string := "Seus melhores dias de estudo são quinta e sexta-feira."
  const PreferenceLine: string := "Você tem preferência por cursos de programação e design."
  const CountMiddle: string := " conquistas desbloqueadas de "
  const CountTail: string := " total."

  /** The insight lines: the hours studied, two fixed lines, and the unlocked
      achievements out of all of them. */
  function Insights(stats: Option<Progress.Stats>, achievements: seq<Achievement>): (r: seq<string>)
    ensures |r| == 4
  {
    [HoursLead + NatToString(Metric(stats, (s: Progress.Stats) => s.totalWatchTime) / 60) + HoursTail,
     DaysLine,
     PreferenceLine,
     NatToString(UnlockedCount(achievements)) + CountMiddle + NatToString(|achievements|) + CountTail]
  }

  /** The digits a line starts with. */
  function LeadingDigits(s: string): (r: string)
    ensures r <= s
  {
    if s != [] && IsDigit(s[0]) then [s[0]] + LeadingDigits(s[1..]) else []
  }

  lemma {:induction false} LeadingDigitsOf(d: string, rest: string)
    requires forall k :: 0 <= k < |d| ==> IsDigit(d[k])
    requires rest != [] && !IsDigit(rest[0])
    ensures LeadingDigits(d + rest) == d
  {
    if d != [] {
      assert (d + rest)[1..] == d[1..] + rest;
      LeadingDigitsOf(d[1..], rest);
    } else {
      assert d + rest == rest;
    }
  }

  /** A number followed by a line that does not start with a digit reads
      back as that number. */
  lemma ReadNumberAhead(n: nat, rest: string)
    requires rest != [] && !IsDigit(rest[0])
    ensures ParseNat(LeadingDigits(NatToString(n) + rest)) == n
  {
    var d := NatToString(n);
    assert forall k :: 0 <= k < |d| ==> IsDigit(d[k]);
    LeadingDigitsOf(d, rest);
    ParseNatToString(n);
  }

  /** The hours line of `Insights` carries the whole hours after its lead. */
  lemma HoursLine(stats: Option<Progress.Stats>, achievements: seq<Achievement>, line: string, hours: nat)
    requires hours == Metric(stats, (s: Progress.Stats) => s.totalWatchTime) / 60
    requires line == Insights(stats, achievements)[0]
    ensures line[..|HoursLead|] == HoursLead && ParseNat(LeadingDigits(line[|HoursLead|..])) == hours
  {
    assert line == HoursLead + (NatToString(hours) + HoursTail);
    assert line[..|HoursLead|] == HoursLead;
    assert line[|HoursLead|..] == NatToString(hours) + HoursTail;
    assert HoursTail[0] == 'h';
    ReadNumberAhead(hours, HoursTail);
  }

  /** The count line of `Insights` starts with the number of unlocked achievements. */
  lemma CountLine(stats: Option<Progress.Stats>, achievements: seq<Achievement>, line: string)
    requires line == Insights(stats, achievements)[3]
    ensures ParseNat(LeadingDigits(line)) == UnlockedCount(achievements)
  {
    var rest := CountMiddle + NatToString(|achievements|) + CountTail;
    assert line == NatToString(UnlockedCount(achievements)) + rest;
    assert rest[0] == CountMiddle[0] == ' ';
    ReadNumberAhead(UnlockedCount(achievements), rest);
  }

  /** The count line of `Insights` goes on, after the unlocked count and
      `CountMiddle`, with the number of achievements. */
  lemma CountTotalLine(stats: Option<Progress.Stats>, achievements: seq<Achievement>, line: string)
    requires line == Insights(stats, achievements)[3]
    ensures var at := |NatToString(UnlockedCount(achievements))| + |CountMiddle|;
      at <= |line| && line[at - |CountMiddle|..at] == CountMiddle &&
      ParseNat(LeadingDigits(line[at..])) == |achievements|
  {
    var u := NatToString(UnlockedCount(achievements));
    var at := |u| + |CountMiddle|;
    assert line == (u + CountMiddle) + (NatToString(|achievements|) + CountTail);
    assert line[at - |CountMiddle|..at] == CountMiddle;
    assert line[at..] == NatToString(|achievements|) + CountTail;
    assert CountTail[0] == ' ';
    ReadNumberAhead(|achievements|, CountTail);
  }

  /** The first insight gives, after "Você estudou ", the whole hours watched. */
  lemma HoursInsight(stats: Option<Progress.Stats>)
    ensures var line := AnalyticsOf(stats).insights[0];
      line[..|HoursLead|] == HoursLead &&
      ParseNat(LeadingDigits(line[|HoursLead|..])) == AnalyticsOf(stats).totalMinutes / 60
  {
    var r := AnalyticsOf(stats);
    HoursLine(stats, r.achievements, r.insights[0], r.totalMinutes / 60);
  }

  /** The fourth insight starts with the number of unlocked achievements. */
  lemma CountInsight(stats: Option<Progress.Stats>)
    ensures ParseNat(LeadingDigits(AnalyticsOf(stats).insights[3])) == UnlockedCount(Achievements(stats))
    ensures var line := AnalyticsOf(stats).insights[3];
      var at := |NatToString(UnlockedCount(Achievements(stats)))| + |CountMiddle|;
      at <= |line| && line[at - |CountMiddle|..at] == CountMiddle && ParseNat(LeadingDigits(line[at..])) == 6
  {
    var r := AnalyticsOf(stats);
    CountLine(stats, r.achievements, r.insights[3]);
    CountTotalLine(stats, r.achievements, r.insights[3]);
  }

  /** `generateMockAnalytics` on the statistics (`None` for `null`). */
  function AnalyticsOf(stats: Option<Progress.Stats>): (r: AnalyticsData)
    ensures r.totalMinutes == Metric(stats, (s: Progress.Stats) => s.totalWatchTime)
    ensures r.achievements == Achievements(stats)
    ensures r.insights == Insights(stats, Achievements(stats))
  {
    var achievements := Achievements(stats);
    AnalyticsData(Metric(stats, (s: Progress.Stats) => s.totalWatchTime), achievements, Insights(stats, achievements))
  }

  /** The hook's state. */
  class AnalyticsHook {
    var analytics: Option<AnalyticsData>
    var loading: bool

    constructor ()
      ensures analytics.None? && !loading
    {
      analytics := None;
      loading := false;
    }

    /** `loadAnalytics()` with the statistics `getUserStats` returned. */
    method LoadAnalytics(user: Option<string>, stats: Option<Progress.Stats>)
      modifies this
      ensures user.None? ==> analytics == old(analytics) && loading == old(loading)
      ensures user.Some? ==> analytics == Some(AnalyticsOf(stats)) && !loading
    {
      if user.None? {
        return;
      }
      loading := true;
      analytics := Some(AnalyticsOf(stats));
      loading := false;
    }
  }
}
