/** The `Dashboard` page: the avatar's fallback text and the names shown for
    the signed-in user. */
module Dashboard {
  import opened Wrappers
  import opened Seqs
  import opened Text

  const DefaultGreeting: string := "Estudante"
  const DefaultProfileName: string := "Usuário"
  const DefaultAvatar: string := "U"

  /** `getInitials`: the first characters of the space-separated words,
      upper-cased, at most two; empty segments give nothing. */
  function Initials(name: string): (r: string)
    ensures |r| <= 2
    ensures var ne := Filter(Split(name, ' '), (w: string) => w != []);
      |r| == (if |ne| < 2 then |ne| else 2) && forall k :: 0 <= k < |r| ==> r[k] == UpperChar(ne[k][0])
  {
    FirstCharsNonEmpty(Split(name, ' '));
    Take(Upper(FirstChars(Split(name, ' '))), 2)
  }

  /** For a name made of non-empty words, the initials are the upper-cased
      first characters of its first two words. */
  lemma InitialsOfWords(words: seq<string>)
    requires |words| >= 1
    requires forall k :: 0 <= k < |words| ==> words[k] != [] && ' ' !in words[k]
    ensures var r := Initials(Join(words, ' '));
      |r| == (if |words| < 2 then |words| else 2) && forall k :: 0 <= k < |r| ==> r[k] == UpperChar(words[k][0])
  {
    SplitJoin(words, ' ');
  }

  /** Spaces add no initials: empty segments are skipped. */
  lemma SpacesSkipped(name: string)
    ensures Initials(" " + name) == Initials(name)
  {
    SplitSeparator(name, ' ');
    assert FirstChars([[]] + Split(name, ' ')) == FirstChars(Split(name, ' ')) by {
      assert ([[]] + Split(name, ' '))[1..] == Split(name, ' ');
    }
  }

  /** A truthy display name, or `default`. */
  function NameOr(displayName: Option<string>, default: string): (r: string)
    ensures displayName.Some? && displayName.value != [] ==> r == displayName.value
    ensures displayName.None? || displayName.value == [] ==> r == default
  {
    if displayName.Some? && displayName.value != [] then displayName.value else default
  }

  /** The avatar's fallback: the display name's initials when there is a
      display name, else the first character of the e-mail upper-cased, else
      "U". */
  function AvatarText(displayName: Option<string>, email: Option<string>): (r: string)
    ensures displayName.Some? && displayName.value != [] ==> r == Initials(displayName.value)
    ensures (displayName.None? || displayName.value == []) && email.Some? && email.value != [] ==>
      r == [UpperChar(email.value[0])]
    ensures (displayName.None? || displayName.value == []) && (email.None? || email.value == []) ==>
      r == DefaultAvatar
    ensures |r| <= 2
  {
    if displayName.Some? && displayName.value != [] then Initials(displayName.value)
    else if email.Some? && email.value != [] then [UpperChar(email.value[0])]
    else DefaultAvatar
  }

  /** The greeting and the profile card use the same name when there is one,
      and their own defaults otherwise. */
  lemma Names(displayName: Option<string>)
    ensures (NameOr(displayName, DefaultGreeting) == NameOr(displayName, DefaultProfileName)) <==>
            (displayName.Some? && displayName.value != [])
  {
  }
}
