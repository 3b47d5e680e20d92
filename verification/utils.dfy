/**
 `Utils.as_bool`, which reads a configuration value as a flag: a boolean
 is kept, anything else is rendered with `str()`, stripped, lower-cased and
 looked up among the four words that mean true.
 */
module Utils {
  import opened Text

  /** A configuration value: a boolean, a string, or Python's `None`. */
  datatype Setting = Flag(b: bool) | Str(s: string) | Unset

  /** The words that read as true. */
  const TrueWords: set<string> := {"1", "true", "yes", "on"}

  /** `str(value)` of a non-boolean value. */
  function Rendered(v: Setting): string
    requires !v.Flag?
  {
    match v
    case Str(s) => s
    case Unset => "None"
  }

  /** `Utils.as_bool`. The ASCII lower-casing of `Lower` decides membership
      exactly as `str.lower()` would: no other character lower-cases into
      the letters and digits of the four words. */
  function AsBool(v: Setting): (r: bool)
    ensures v.Flag? ==> r == v.b
    ensures v.Unset? ==> !r
  {
    if v.Flag? then v.b
    else Lower(Strip(Rendered(v))) in TrueWords
  }

  /** A true word in any mix of cases and with any whitespace around it
      reads as true. */
  lemma PaddedTrueWord(pre: string, word: string, post: string)
    requires AllSpace(pre) && AllSpace(post)
    requires Lower(word) in TrueWords
    ensures AsBool(Str(pre + word + post))
  {
    assert word != [] && Trimmed(word) by {
      assert Lower(word)[0] == LowerChar(word[0]);
      assert Lower(word)[|word| - 1] == LowerChar(word[|word| - 1]);
    }
    StripOfPadded(pre, word, post);
  }

  /** Only a text whose stripped form is one to four characters long can
      read as true; "", "false" and every longer text read as false. */
  lemma TrueOnlyForShortTexts(s: string)
    requires AsBool(Str(s))
    ensures 1 <= |Strip(s)| <= 4
  {
    WordLength(Lower(Strip(s)));
  }

  lemma WordLength(w: string)
    requires w in TrueWords
    ensures 1 <= |w| <= 4
  {
  }
}
