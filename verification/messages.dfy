/**
 What the handlers see of an incoming chat message, and the two id patterns
 the bots search message text for: `#?(\d+)$` on a /delete command and
 `^#(\d+)` on the text of the message being replied to.
 */
module Messages {
  import opened Basics
  import opened Text

  /** The message a user replied to, if any: its voice attachment's file id
      (when it is a voice message) and its text (when it has one). */
  datatype ReplyContext =
    | NoReply
    | RepliedTo(voiceFileId: Option<string>, text: Option<string>)

  /** `re.search(r"#?(\d+)$", s)`: the value of the maximal digit run that
      ends s, optionally preceded by '#'. The '#' never changes the group,
      and the leftmost match always starts at (or just before) the run. */
  function TrailingId(s: string): (r: Option<nat>)
    ensures r.Some? <==> |s| > 0 && IsDigit(s[|s| - 1])
    ensures r.Some? ==>
      exists k | 0 <= k < |s| ::
        && AllDigits(s[k..])
        && (k == 0 || !IsDigit(s[k - 1]))
        && r.value == DecimalValue(s[k..])
  {
    var run := DigitSuffix(s);
    if run == [] then None
    else
      assert s[|s| - |run|..] == run;
      Some(DecimalValue(run))
  }

  /** `re.match(r"^#(\d+)", s)`: '#' followed by at least one digit at the
      very start; the value of that maximal digit run. */
  function LeadingId(s: string): (r: Option<nat>)
    ensures r.Some? <==> |s| >= 2 && s[0] == '#' && IsDigit(s[1])
    ensures r.Some? ==>
      exists k | 2 <= k <= |s| ::
        && AllDigits(s[1..k])
        && (k == |s| || !IsDigit(s[k]))
        && r.value == DecimalValue(s[1..k])
  {
    if |s| >= 1 && s[0] == '#' then
      var run := DigitPrefix(s[1..]);
      if run == [] then None
      else
        assert s[1..1 + |run|] == run;
        Some(DecimalValue(run))
    else None
  }

  /** LeadingId of an optional reply text; Python treats `None` and "" alike. */
  function LeadingIdOf(text: Option<string>): Option<nat> {
    match text
    case None => None
    case Some(t) => LeadingId(t)
  }

  /** A command ending in a decimal id, after any non-digit, names that id. */
  lemma {:induction false} TrailingIdOfSpelledId(prefix: string, n: nat)
    requires prefix == [] || !IsDigit(prefix[|prefix| - 1])
    ensures TrailingId(prefix + NatToString(n)) == Some(n)
  {
    DigitSuffixOfOtherThenDigits(prefix, NatToString(n));
  }

  lemma {:induction false} DigitSuffixOfOtherThenDigits(p: string, d: string)
    requires AllDigits(d)
    requires p == [] || !IsDigit(p[|p| - 1])
    ensures DigitSuffix(p + d) == d
  {
    if d == [] {
      assert p + d == p;
    } else {
      var init := d[..|d| - 1];
      assert (p + d)[..|p + d| - 1] == p + init;
      DigitSuffixOfOtherThenDigits(p, init);
      assert init + [d[|d| - 1]] == d;
    }
  }
}
