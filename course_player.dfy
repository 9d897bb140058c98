/** The `CoursePlayer` page: the progress reported by the video, the
    favourite button and the instructor's initials. */
module CoursePlayer {
  import opened Wrappers
  import opened Seqs
  import opened Text

  /** The database is written when the whole seconds played are a multiple of this. */
  const SaveEvery: nat := 30

  /** The `updateProgress(courseId, percentage, minutes)` call a progress
      report makes. */
  datatype SaveRequest = SaveRequest(courseId: string, percentage: int, watchMinutes: nat)

  /** The instructor's initials: the first characters of the space-separated
      words, at most two, case kept. */
  function Initials(name: string): (r: string)
    ensures |r| <= 2
    ensures var ne := Filter(Split(name, ' '), (w: string) => w != []);
      |r| == (if |ne| < 2 then |ne| else 2) && forall k :: 0 <= k < |r| ==> r[k] == ne[k][0]
  {
    FirstCharsNonEmpty(Split(name, ' '));
    Take(FirstChars(Split(name, ' ')), 2)
  }

  /** For a name made of non-empty words, the initials are the first
      characters of its first two words. */
  lemma InitialsOfWords(words: seq<string>)
    requires |words| >= 1
    requires forall k :: 0 <= k < |words| ==> words[k] != [] && ' ' !in words[k]
    ensures var r := Initials(Join(words, ' '));
      |r| == (if |words| < 2 then |words| else 2) && forall k :: 0 <= k < |r| ==> r[k] == words[k][0]
  {
    SplitJoin(words, ' ');
  }

  /** The page's state. */
  class Player {
    var courseProgress: int
    var watchTime: nat
    var isFavorite: bool

    constructor ()
      ensures courseProgress == 0 && watchTime == 0 && !isFavorite
    {
      courseProgress := 0;
      watchTime := 0;
      isFavorite := false;
    }

    /** `loadUserProgress()`: `saved` is the pair's progress row (its percentage
        and minutes), `favorite` whether the pair has a favourite row. */
    method LoadUserProgress(courseId: Option<string>, user: Option<string>,
                            saved: Option<(int, nat)>, favorite: bool)
      modifies this
      ensures courseId.None? || user.None? ==>
        courseProgress == old(courseProgress) && watchTime == old(watchTime) && isFavorite == old(isFavorite)
      ensures courseId.Some? && user.Some? ==>
        isFavorite == favorite &&
        (saved.Some? ==> courseProgress == saved.value.0 && watchTime == saved.value.1) &&
        (saved.None? ==> courseProgress == old(courseProgress) && watchTime == old(watchTime))
    {
      if courseId.None? || user.None? {
        return;
      }
      if saved.Some? {
        courseProgress := saved.value.0;
        watchTime := saved.value.1;
      }
      isFavorite := favorite;
    }

    /** `handleProgress` after `seconds` whole seconds of video: the local
        state follows every report; `save` is the database write, made only on
        a multiple of 30 seconds. */
    method HandleProgress(courseId: Option<string>, user: Option<string>, seconds: nat, percentage: int)
      returns (save: Option<SaveRequest>)
      modifies this
      ensures isFavorite == old(isFavorite)
      ensures courseId.None? || user.None? ==>
        save.None? && courseProgress == old(courseProgress) && watchTime == old(watchTime)
      ensures courseId.Some? && user.Some? ==>
        courseProgress == percentage && watchTime == seconds / 60 &&
        (save.Some? <==> seconds % SaveEvery == 0) &&
        (save.Some? ==> save.value == SaveRequest(courseId.value, percentage, seconds / 60))
    {
      if courseId.None? || user.None? {
        return None;
      }
      var minutes := seconds / 60;
      courseProgress := percentage;
      watchTime := minutes;
      save := None;
      if seconds % SaveEvery == 0 {
        save := Some(SaveRequest(courseId.value, percentage, minutes));
      }
    }

    /** `handleToggleFavorite`: the flag flips once `toggleFavorite` returns,
        whether or not the toggle was written; `toggled` is the course passed
        to it. */
    method HandleToggleFavorite(courseId: Option<string>) returns (toggled: Option<string>)
      modifies this
      ensures toggled == courseId
      ensures courseId.None? ==> isFavorite == old(isFavorite)
      ensures courseId.Some? ==> isFavorite == !old(isFavorite)
      ensures courseProgress == old(courseProgress) && watchTime == old(watchTime)
    {
      if courseId.None? {
        return None;
      }
      toggled := courseId;
      isFavorite := !isFavorite;
    }
  }

  /** Two progress reports in the same 30-second window write at most once. */
  lemma OneSavePerWindow(a: nat, b: nat)
    requires a < b < a + SaveEvery
    ensures !(a % SaveEvery == 0 && b % SaveEvery == 0)
  {
  }
}
