/** What the suggestions panel and the progress card show, as values. */
module Cards {
  import opened Wrappers
  import opened Text
  import opened Tables
  import Durations
  import GeminiSuggestionsHook

  const StartLabel: string := "Iniciar"
  const ContinueLabel: string := "Continuar"
  const CompletedLabel: string := "Concluído"
  const ReasonMark: string := "✨ "

  /** One entry of the suggestions list. */
  datatype Entry = Entry(courseId: string, title: string, reasonLine: Option<string>, duration: string)

  /** What the suggestions panel renders: the spinner, the empty state with
      its "Gerar Sugestões" button, or the list. */
  datatype Panel = Spinner | NoSuggestions | Listing(entries: seq<Entry>)

  /** The list entry of one suggestion: the reason line is shown only for a
      non-empty reason, and the duration is written by `Rounded`. */
  function EntryOf(s: GeminiSuggestionsHook.Suggestion): (e: Entry)
    ensures e.courseId == s.course.id && e.title == s.course.title
    ensures e.reasonLine.Some? <==> s.reason.Some? && s.reason.value != []
    ensures e.reasonLine.Some? ==> e.reasonLine.value == ReasonMark + s.reason.value
    ensures Durations.ReadDuration(e.duration) == Some(s.course.durationMinutes)
  {
    Durations.ReadRounded(s.course.durationMinutes);
    Entry(s.course.id, s.course.title,
          if s.reason.Some? && s.reason.value != [] then Some(ReasonMark + s.reason.value) else None,
          Durations.Rounded(s.course.durationMinutes))
  }

  /** The panel for the hook's `loading` and `suggestions`: loading wins, then
      an empty list, then one entry per suggestion in order. */
  function PanelOf(loading: bool, suggestions: seq<GeminiSuggestionsHook.Suggestion>): (r: Panel)
    ensures loading <==> r == Spinner
    ensures !loading && suggestions == [] <==> r == NoSuggestions
    ensures r.Listing? ==> |r.entries| == |suggestions| && r.entries != []
    ensures r.Listing? ==> forall k :: 0 <= k < |suggestions| ==> r.entries[k] == EntryOf(suggestions[k])
  {
    if loading then Spinner
    else if suggestions == [] then NoSuggestions
    else Listing(seq(|suggestions|, k requires 0 <= k < |suggestions| => EntryOf(suggestions[k])))
  }

  /** The text a progress card shows. */
  datatype Card = Card(button: string, badge: string, percent: string, watch: string)

  /** `ProgressCard` for a progress row and its embedded course: nothing
      without a course. */
  function CardOf(row: ProgressRow, course: Option<Course>): (r: Option<Card>)
    ensures r.Some? <==> course.Some?
    ensures r.Some? ==> (r.value.button == StartLabel <==> row.percentage == 0)
    ensures r.Some? ==> (r.value.button == ContinueLabel <==> row.percentage != 0)
    ensures r.Some? ==> (r.value.badge == CompletedLabel <==> row.isCompleted)
    ensures r.Some? && !row.isCompleted ==> r.value.badge == r.value.percent
    ensures r.Some? ==> r.value.percent == IntToString(row.percentage) + "%"
    ensures r.Some? ==> Durations.ReadWatchTime(r.value.watch) == Some((row.watchMinutes, course.value.durationMinutes))
  {
    if course.None? then None
    else
      var percent := IntToString(row.percentage) + "%";
      PercentNotCompleted(row.percentage);
      Durations.ReadWatch(row.watchMinutes, course.value.durationMinutes);
      Some(Card(if row.percentage == 0 then StartLabel else ContinueLabel,
                if row.isCompleted then CompletedLabel else percent,
                percent,
                Durations.WatchTime(row.watchMinutes, course.value.durationMinutes)))
  }

  lemma PercentNotCompleted(p: int)
    ensures IntToString(p) + "%" != CompletedLabel
  {
    var s := IntToString(p) + "%";
    assert s[|s| - 1] == '%';
  }

  /** For a percentage that is not negative the percent text reads back as that number. */
  lemma ReadPercent(p: nat)
    ensures var s := IntToString(p) + "%"; ParseNat(s[..|s| - 1]) == p && s[|s| - 1] == '%'
  {
    var s := IntToString(p) + "%";
    assert s[..|s| - 1] == NatToString(p);
    ParseNatToString(p);
  }
}
