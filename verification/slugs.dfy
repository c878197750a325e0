/** The tag a moment's name gives its photos: the name lower-cased, with
    each run of whitespace turned into one dash. */
module Slugs {
  import opened Text

  /** `name.toLowerCase().replace(/\s+/g, '-')`. */
  function Slug(name: string): (r: string)
    ensures NoWhitespace(r)
    ensures name != [] && !IsWhitespace(LowerChar(name[0])) ==> r != [] && r[0] == LowerChar(name[0])
  {
    ReplaceWhitespaceRuns(ToLower(name), "-")
  }

  predicate Letter(c: char) {
    'a' <= c <= 'z' || 'A' <= c <= 'Z'
  }

  /** Latin words separated by single spaces, as every moment name is. */
  predicate Words(s: string) {
    && (forall i :: 0 <= i < |s| ==> Letter(s[i]) || s[i] == ' ')
    && (forall i :: 0 < i < |s| ==> s[i - 1] == ' ' ==> s[i] != ' ')
  }

  /** Non-whitespace characters and single spaces, never two spaces in a row. */
  predicate SingleSpaced(t: string) {
    && (forall i :: 0 <= i < |t| ==> t[i] == ' ' || !IsWhitespace(t[i]))
    && (forall i :: 0 < i < |t| ==> t[i - 1] == ' ' ==> t[i] != ' ')
  }

  /** What a slug makes of one character of a `Words` name. */
  function DashChar(c: char): char {
    if c == ' ' then '-' else LowerChar(c)
  }

  /** A `Words` name, character by character through `DashChar`. */
  function Dashed(s: string): (r: string)
    ensures |r| == |s| && forall i :: 0 <= i < |s| ==> r[i] == DashChar(s[i])
  {
    seq(|s|, i requires 0 <= i < |s| => DashChar(s[i]))
  }

  /** Dropping the first character keeps a string single-spaced, and a
      leading space is followed by no whitespace. */
  lemma SingleSpacedTail(t: string)
    requires t != [] && SingleSpaced(t)
    ensures SingleSpaced(t[1..])
    ensures t[0] == ' ' && |t| > 1 ==> !IsWhitespace(t[1])
  {
    var y := t[1..];
    forall i | 0 < i < |y|
      ensures y[i - 1] == ' ' ==> y[i] != ' '
    {
      assert y[i - 1] == t[i] && y[i] == t[i + 1];
    }
  }

  /** One step of the replacement on a single-spaced string: the first
      character, with a space turned into a dash, then the rest. */
  lemma DashFront(t: string)
    requires t != [] && SingleSpaced(t)
    ensures ReplaceWhitespaceRuns(t, "-") == [if t[0] == ' ' then '-' else t[0]] + ReplaceWhitespaceRuns(t[1..], "-")
  {
    SingleSpacedTail(t);
    assert [t[0]] + t[1..] == t;
    if t[0] == ' ' {
      ReplaceRunAtFront([t[0]], t[1..], "-");
    } else {
      ReplaceKeepsWord(t[0], t[1..], "-");
    }
  }

  /** On a single-spaced string the replacement is a character-by-character
      map: each space becomes a dash and everything else stays. */
  lemma {:induction false} DashSpaces(t: string)
    requires SingleSpaced(t)
    ensures ReplaceWhitespaceRuns(t, "-") == seq(|t|, i requires 0 <= i < |t| => if t[i] == ' ' then '-' else t[i])
    decreases |t|
  {
    if t != [] {
      SingleSpacedTail(t);
      DashSpaces(t[1..]);
      DashFront(t);
    }
  }

  /** The slug of a `Words` name is the name with every letter lower-cased
      and every space a dash. */
  lemma SlugOfWords(name: string)
    requires Words(name)
    ensures Slug(name) == Dashed(name)
  {
    var t := ToLower(name);
    assert SingleSpaced(t);
    DashSpaces(t);
  }

  lemma EveningPrayersSpelling(name: string)
    requires name == "Evening Prayers"
    ensures Words(name) && Dashed(name) == "evening-prayers"
  {
  }

  lemma NightVigilSpelling(name: string)
    requires name == "Night Vigil"
    ensures Words(name) && Dashed(name) == "night-vigil"
  {
  }

  lemma MidnightChantSpelling(name: string)
    requires name == "Midnight Chant"
    ensures Words(name) && Dashed(name) == "midnight-chant"
  {
  }

  lemma BrahmaMuhurtaSpelling(name: string)
    requires name == "Brahma Muhurta"
    ensures Words(name) && Dashed(name) == "brahma-muhurta"
  {
  }

  lemma DawnAartiSpelling(name: string)
    requires name == "Dawn Aarti"
    ensures Words(name) && Dashed(name) == "dawn-aarti"
  {
  }

  lemma MorningGatheringSpelling(name: string)
    requires name == "Morning Gathering"
    ensures Words(name) && Dashed(name) == "morning-gathering"
  {
  }

  lemma NoonCelebrationSpelling(name: string)
    requires name == "Noon Celebration"
    ensures Words(name) && Dashed(name) == "noon-celebration"
  {
  }

  lemma AfternoonWindDownSpelling(name: string)
    requires name == "Afternoon Wind Down"
    ensures Words(name) && Dashed(name) == "afternoon-wind-down"
  {
  }
}
