/** The ways the pages write a number of minutes, and a reader that gets the
    minutes back from any of them. */
module Durations {
  import opened Wrappers
  import opened Text

  const MinutesPerHour: nat := 60

  /** Hours and minutes, as in `2h 5m`. */
  function HoursAndMinutes(hours: nat, mins: nat): string {
    NatToString(hours) + "h " + NatToString(mins) + "m"
  }

  /** Whole hours, as in `2h ` (the space stays). */
  function HoursOnly(hours: nat): string {
    NatToString(hours) + "h "
  }

  /** Minutes only, as in `45m`. */
  function MinutesOnly(mins: nat): string {
    NatToString(mins) + "m"
  }

  /** `formatDuration` of the course player and of the progress card: hours
      and minutes, or only minutes under an hour. */
  function Compact(minutes: nat): (r: string)
    ensures 'h' in r <==> minutes >= MinutesPerHour
    ensures minutes < MinutesPerHour ==> r == MinutesOnly(minutes)
    ensures minutes >= MinutesPerHour ==>
      exists h: nat, m: nat :: h >= 1 && m < MinutesPerHour && h * MinutesPerHour + m == minutes &&
        r == HoursAndMinutes(h, m)
  {
    var hours, mins := minutes / MinutesPerHour, minutes % MinutesPerHour;
    NoLetters(hours);
    NoLetters(mins);
    if hours > 0 then HoursAndMinutes(hours, mins) else MinutesOnly(mins)
  }

  /** `formatDuration` of the suggestions panel: like `Compact`, but a whole
      number of hours is written without minutes (and keeps its space). */
  function Rounded(minutes: nat): (r: string)
    ensures 'm' !in r <==> minutes >= MinutesPerHour && minutes % MinutesPerHour == 0
    ensures minutes < MinutesPerHour ==> r == MinutesOnly(minutes)
    ensures minutes >= MinutesPerHour && minutes % MinutesPerHour == 0 ==>
      r == HoursOnly(minutes / MinutesPerHour)
    ensures minutes >= MinutesPerHour && minutes % MinutesPerHour != 0 ==>
      exists h: nat, m: nat :: h >= 1 && 0 < m < MinutesPerHour && h * MinutesPerHour + m == minutes &&
        r == HoursAndMinutes(h, m)
  {
    var hours, mins := minutes / MinutesPerHour, minutes % MinutesPerHour;
    NoLetters(hours);
    NoLetters(mins);
    if hours > 0 then (if mins > 0 then HoursAndMinutes(hours, mins) else HoursOnly(hours))
    else MinutesOnly(mins)
  }

  /** The certificate's duration: always hours and minutes. */
  function Full(minutes: nat): (r: string)
    ensures 'h' in r && 'm' in r
    ensures exists h: nat, m: nat ::
      m < MinutesPerHour && h * MinutesPerHour + m == minutes && r == HoursAndMinutes(h, m)
  {
    HoursAndMinutes(minutes / MinutesPerHour, minutes % MinutesPerHour)
  }

  /** `formatWatchTime`: the watched and the total time, in `Compact` form. */
  function WatchTime(watched: nat, total: nat): string {
    Compact(watched) + " / " + Compact(total)
  }

  predicate AllDigits(s: string) {
    forall k :: 0 <= k < |s| ==> IsDigit(s[k])
  }

  lemma NoLetters(n: nat)
    ensures var d := NatToString(n); 'h' !in d && 'm' !in d && ' ' !in d && '/' !in d && AllDigits(d)
  {
    var d := NatToString(n);
    assert forall k :: 0 <= k < |d| ==> IsDigit(d[k]);
  }

  /** A number of minutes written as digits followed by `m`. */
  function ReadMinutes(t: string): Option<nat> {
    if |t| >= 2 && t[|t| - 1] == 'm' && AllDigits(t[..|t| - 1]) then Some(ParseNat(t[..|t| - 1]))
    else None
  }

  /** The minutes written as `Mm`, `Hh Mm` or `Hh `; `None` for any other text. */
  function ReadDuration(s: string): Option<nat> {
    ReadPieces(Split(s, 'h'))
  }

  /** The minutes, from the text split at each `h`. */
  function ReadPieces(parts: seq<string>): Option<nat> {
    if |parts| == 1 then ReadMinutes(parts[0])
    else if |parts| == 2 then ReadHours(parts[0], parts[1])
    else None
  }

  /** The minutes written as `Hh Mm` or `Hh `, from the digits before the `h`
      and the text after it. */
  function ReadHours(digits: string, rest: string): Option<nat> {
    if digits != [] && AllDigits(digits) && |rest| >= 1 && rest[0] == ' ' then
      var hours := ParseNat(digits);
      if rest == " " then Some(hours * MinutesPerHour)
      else match ReadMinutes(rest[1..])
        case None => None
        case Some(mins) => Some(hours * MinutesPerHour + mins)
    else None
  }

  /** A number is written with digits only, and they read back as the number. */
  lemma Digits(n: nat)
    ensures var d := NatToString(n); d != [] && AllDigits(d) && ParseNat(d) == n
  {
    NoLetters(n);
    ParseNatToString(n);
  }

  lemma ReadDigitsM(d: string)
    requires d != [] && AllDigits(d)
    ensures ReadMinutes(d + "m") == Some(ParseNat(d))
  {
    var t := d + "m";
    assert t[..|t| - 1] == d;
  }

  /** Digits, an `h` and what follows, split at the `h`. */
  lemma SplitAtH(a: string, rest: string)
    requires AllDigits(a) && 'h' !in rest
    ensures Split(a + "h" + rest, 'h') == [a, rest]
  {
    assert 'h' !in a by {
      forall k | 0 <= k < |a| ensures a[k] != 'h' {
        assert IsDigit(a[k]);
      }
    }
    var parts := [a, rest];
    SplitJoin(parts, 'h');
    assert Join(parts[1..], 'h') == rest;
  }

  lemma DigitsNoH(b: string)
    requires AllDigits(b)
    ensures 'h' !in " " + b + "m" && 'h' !in b + "m"
  {
    var rest := " " + b + "m";
    forall k | 0 <= k < |rest| ensures rest[k] != 'h' {
      if 0 < k < |rest| - 1 {
        assert rest[k] == b[k - 1] && IsDigit(b[k - 1]);
      }
    }
    var t := b + "m";
    forall k | 0 <= k < |t| ensures t[k] != 'h' {
      if k < |t| - 1 {
        assert t[k] == b[k] && IsDigit(b[k]);
      }
    }
  }

  lemma HoursThenMinutes(a: string, rest: string, mins: nat)
    requires a != [] && AllDigits(a) && |rest| >= 2 && rest[0] == ' '
    requires ReadMinutes(rest[1..]) == Some(mins)
    ensures ReadPieces([a, rest]) == Some(ParseNat(a) * MinutesPerHour + mins)
  {
    assert rest != " ";
  }

  /** Digits `a`, `h `, digits `b` and `m` read as `a` hours and `b` minutes. */
  lemma ReadParts(a: string, b: string, s: string)
    requires a != [] && AllDigits(a) && b != [] && AllDigits(b)
    requires s == a + "h " + b + "m"
    ensures ReadDuration(s) == Some(ParseNat(a) * MinutesPerHour + ParseNat(b))
  {
    var rest, mins := " " + b + "m", b + "m";
    DigitsNoH(b);
    assert s == a + "h" + rest;
    SplitAtH(a, rest);
    assert rest[1..] == mins;
    ReadDigitsM(b);
    HoursThenMinutes(a, rest, ParseNat(b));
  }

  /** Digits `a` and `h ` read as `a` hours. */
  lemma ReadHoursText(a: string, s: string)
    requires a != [] && AllDigits(a)
    requires s == a + "h "
    ensures ReadDuration(s) == Some(ParseNat(a) * MinutesPerHour)
  {
    assert s == a + "h" + " ";
    SplitAtH(a, " ");
    assert ReadPieces([a, " "]) == ReadHours(a, " ");
  }

  /** Digits `b` and `m` read as `b` minutes. */
  lemma ReadMinutesText(b: string, s: string)
    requires b != [] && AllDigits(b)
    requires s == b + "m"
    ensures ReadDuration(s) == Some(ParseNat(b))
  {
    DigitsNoH(b);
    SplitJoin([s], 'h');
    ReadDigitsM(b);
  }

  /** `HoursAndMinutes` reads back as the minutes it writes. */
  lemma ReadHoursAndMinutes(hours: nat, mins: nat)
    ensures ReadDuration(HoursAndMinutes(hours, mins)) == Some(hours * MinutesPerHour + mins)
  {
    Digits(hours);
    Digits(mins);
    ReadParts(NatToString(hours), NatToString(mins), HoursAndMinutes(hours, mins));
  }

  /** So does `HoursOnly`. */
  lemma ReadHoursOnly(hours: nat)
    ensures ReadDuration(HoursOnly(hours)) == Some(hours * MinutesPerHour)
  {
    Digits(hours);
    ReadHoursText(NatToString(hours), HoursOnly(hours));
  }

  /** So does `MinutesOnly`. */
  lemma ReadMinutesOnly(mins: nat)
    ensures ReadDuration(MinutesOnly(mins)) == Some(mins)
  {
    Digits(mins);
    ReadMinutesText(NatToString(mins), MinutesOnly(mins));
  }

  /** `Compact` loses nothing: reading it back gives the minutes. */
  lemma ReadCompact(minutes: nat)
    ensures ReadDuration(Compact(minutes)) == Some(minutes)
  {
    var hours, mins := minutes / MinutesPerHour, minutes % MinutesPerHour;
    if hours > 0 {
      assert Compact(minutes) == HoursAndMinutes(hours, mins);
      ReadHoursAndMinutes(hours, mins);
    } else {
      assert Compact(minutes) == MinutesOnly(mins);
      ReadMinutesOnly(mins);
    }
  }

  /** Nor does `Rounded`. */
  lemma ReadRounded(minutes: nat)
    ensures ReadDuration(Rounded(minutes)) == Some(minutes)
  {
    if minutes < MinutesPerHour {
      ReadMinutesOnly(minutes);
    } else if minutes % MinutesPerHour == 0 {
      var h := minutes / MinutesPerHour;
      assert h * MinutesPerHour == minutes;
      assert Rounded(minutes) == HoursOnly(h);
      ReadHoursOnly(h);
    } else {
      var h, m := minutes / MinutesPerHour, minutes % MinutesPerHour;
      assert h * MinutesPerHour + m == minutes;
      assert Rounded(minutes) == HoursAndMinutes(h, m);
      ReadHoursAndMinutes(h, m);
    }
  }

  /** Nor does `Full`, even with no whole hour. */
  lemma ReadFull(minutes: nat)
    ensures ReadDuration(Full(minutes)) == Some(minutes)
  {
    ReadHoursAndMinutes(minutes / MinutesPerHour, minutes % MinutesPerHour);
  }

  /** The two times of `WatchTime`, read back. */
  function ReadWatchTime(s: string): Option<(nat, nat)> {
    var parts := Split(s, '/');
    if |parts| == 2 && |parts[0]| >= 1 && parts[0][|parts[0]| - 1] == ' ' &&
       |parts[1]| >= 1 && parts[1][0] == ' ' then
      match (ReadDuration(parts[0][..|parts[0]| - 1]), ReadDuration(parts[1][1..]))
      case (Some(w), Some(t)) => Some((w, t))
      case _ => None
    else None
  }

  lemma CompactNoSlash(minutes: nat)
    ensures '/' !in Compact(minutes)
  {
    NoLetters(minutes / MinutesPerHour);
    NoLetters(minutes % MinutesPerHour);
  }

  /** Two texts without `/`, joined by ` / `, read back as the two durations. */
  lemma ReadAroundSlash(x: string, y: string, watched: nat, total: nat)
    requires '/' !in x && '/' !in y
    requires ReadDuration(x) == Some(watched) && ReadDuration(y) == Some(total)
    ensures ReadWatchTime(x + " / " + y) == Some((watched, total))
  {
    var a, b := x + " ", " " + y;
    assert '/' !in a && '/' !in b;
    assert x + " / " + y == Join([a, b], '/');
    SplitJoin([a, b], '/');
    assert a[..|a| - 1] == x;
    assert b[1..] == y;
  }

  /** Reading `WatchTime` back gives both times. */
  lemma ReadWatch(watched: nat, total: nat)
    ensures ReadWatchTime(WatchTime(watched, total)) == Some((watched, total))
  {
    CompactNoSlash(watched);
    CompactNoSlash(total);
    ReadCompact(watched);
    ReadCompact(total);
    ReadAroundSlash(Compact(watched), Compact(total), watched, total);
  }
}
