/** The `SearchFilters` component: editing the filter object one key at a
    time, whether any filter is active, and the labels its badges show. */
module SearchFilters {
  import opened Wrappers
  import opened CourseSearch

  /** A value of a select and the label it is shown with. */
  datatype OptionLabel = OptionLabel(value: string, caption: string)

  const Levels: seq<OptionLabel> := [
    OptionLabel("iniciante", "Iniciante"),
    OptionLabel("intermediario", "Intermediário"),
    OptionLabel("avancado", "Avançado")]

  const Durations: seq<OptionLabel> := [
    OptionLabel("short", "Até 1h"),
    OptionLabel("medium", "1h - 3h"),
    OptionLabel("long", "Mais de 3h")]

  /** The filter object after `updateFilter(key, value)`: an absent or empty
      value removes the key, any other value sets it. */
  function Updated(f: Filters, key: FilterKey, value: Option<string>): (r: Filters)
    ensures value.None? || value.value == [] ==> key !in r
    ensures value.Some? && value.value != [] ==> key in r && r[key] == value.value
    ensures forall k :: k != key ==> (k in r <==> k in f) && (k in f ==> r[k] == f[k])
  {
    if value.None? || value.value == [] then f - {key} else f[key := value.value]
  }

  /** Applying the same update twice is applying it once. */
  lemma UpdateIdempotent(f: Filters, key: FilterKey, value: Option<string>)
    ensures Updated(Updated(f, key, value), key, value) == Updated(f, key, value)
  {
  }

  /** Setting a key and then clearing it is clearing it. */
  lemma SetThenClear(f: Filters, key: FilterKey, v: string)
    ensures Updated(Updated(f, key, Some(v)), key, None) == Updated(f, key, None)
  {
  }

  /** `updateFilter(key, value)`: edits a copy and hands it on; the map it was
      given is a value and stays as it was. */
  method UpdateFilter(f: Filters, key: FilterKey, value: Option<string>) returns (next: Filters)
    ensures next == Updated(f, key, value)
  {
    next := f;
    if value.None? || value.value == [] {
      next := next - {key};
    } else {
      next := next[key := value.value];
    }
  }

  /** `Object.keys(filters).length > 0`. */
  function HasActiveFilters(f: Filters): (r: bool)
    ensures r <==> exists k :: k in f
  {
    assert forall k :: k in f ==> |f.Keys| > 0 by {
      forall k | k in f ensures |f.Keys| > 0 { assert k in f.Keys; }
    }
    |f.Keys| > 0
  }

  /** Clearing every key leaves nothing active. */
  lemma ClearedInactive(f: Filters)
    ensures !HasActiveFilters(Updated(Updated(Updated(Updated(f, Category, None), Level, None), Duration, None), Instructor, None))
  {
    var r := Updated(Updated(Updated(Updated(f, Category, None), Level, None), Duration, None), Instructor, None);
    forall k ensures k !in r {
      match k
      case Category =>
      case Level =>
      case Duration =>
      case Instructor =>
    }
  }

  /** `options.find(o => o.value === value)?.label`. */
  function LabelOf(options: seq<OptionLabel>, value: string): (r: Option<string>)
    ensures r.Some? <==> exists k :: 0 <= k < |options| && options[k].value == value
    ensures r.Some? ==> exists k :: 0 <= k < |options| && options[k] == OptionLabel(value, r.value)
  {
    if options == [] then None
    else if options[0].value == value then Some(options[0].caption)
    else
      var r := LabelOf(options[1..], value);
      assert forall k :: 1 <= k < |options| ==> options[k] == options[1..][k - 1];
      r
  }

  /** No two options share a value. */
  predicate DistinctValues(options: seq<OptionLabel>) {
    forall i, j :: 0 <= i < j < |options| ==> options[i].value != options[j].value
  }

  /** When the values are distinct, every option's value finds its own label. */
  lemma {:induction false} LabelOfOwn(options: seq<OptionLabel>, k: nat)
    requires DistinctValues(options) && k < |options|
    ensures LabelOf(options, options[k].value) == Some(options[k].caption)
  {
    if k > 0 {
      var tail := options[1..];
      assert DistinctValues(tail) by {
        forall i, j | 0 <= i < j < |tail| ensures tail[i].value != tail[j].value {
          assert tail[i] == options[i + 1] && tail[j] == options[j + 1];
        }
      }
      assert options[0].value != options[k].value;
      assert tail[k - 1] == options[k];
      LabelOfOwn(tail, k - 1);
    }
  }

  /** Each level and duration value shows its own label. */
  lemma BadgeLabels()
    ensures forall o :: o in Levels ==> LabelOf(Levels, o.value) == Some(o.caption)
    ensures forall o :: o in Durations ==> LabelOf(Durations, o.value) == Some(o.caption)
  {
    assert DistinctValues(Levels) && DistinctValues(Durations);
    forall o | o in Levels ensures LabelOf(Levels, o.value) == Some(o.caption) {
      var k :| 0 <= k < |Levels| && Levels[k] == o;
      LabelOfOwn(Levels, k);
    }
    forall o | o in Durations ensures LabelOf(Durations, o.value) == Some(o.caption) {
      var k :| 0 <= k < |Durations| && Durations[k] == o;
      LabelOfOwn(Durations, k);
    }
  }

  /** A badge of the active-filter row; its text is absent when a level or
      duration value has no label. */
  datatype Badge = Badge(key: FilterKey, text: Option<string>)

  /** The badge of one key: present when the key's value is truthy; levels
      and durations show their label, the other keys their value. */
  function Piece(f: Filters, k: FilterKey): (r: seq<Badge>)
    ensures |r| <= 1 && (r != [] <==> Value(f, k).Some?)
    ensures forall b :: b in r ==> b.key == k
    ensures k == Level && r != [] ==> r[0].text == LabelOf(Levels, f[Level])
    ensures k == Duration && r != [] ==> r[0].text == LabelOf(Durations, f[Duration])
    ensures (k == Category || k == Instructor) && r != [] ==> r[0].text == Some(f[k])
  {
    match Value(f, k)
    case None => []
    case Some(v) =>
      [Badge(k, if k == Level then LabelOf(Levels, v)
                else if k == Duration then LabelOf(Durations, v)
                else Some(v))]
  }

  /** The badges shown, in order: category, level, duration, instructor, each
      when its value is truthy. */
  function Badges(f: Filters): (r: seq<Badge>)
    ensures |r| <= 4
    ensures forall b :: b in r ==> Value(f, b.key).Some?
    ensures forall k :: Value(f, k).Some? ==> exists b :: b in r && b.key == k
    ensures r == Piece(f, Category) + Piece(f, Level) + Piece(f, Duration) + Piece(f, Instructor)
  {
    var shown := Piece(f, Category) + Piece(f, Level) + Piece(f, Duration) + Piece(f, Instructor);
    assert forall k :: Value(f, k).Some? ==> Piece(f, k)[0] in shown;
    if HasActiveFilters(f) then shown
    else
      assert forall k :: k !in f;
      []
  }
}
