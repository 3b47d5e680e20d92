/**
 The length-constrained summary generator (`LLMHandler.summarize`): a
 length window derived from the transcript length, widened by a percentage
 tolerance, and a bounded retry loop over an opaque text generator.

 The generator is the sequence of outcomes its successive calls would
 produce; the model says how many of them `summarize` consumes. The newer
 bot turns a failed call into a fixed apology text; the single-file bot
 lets the exception escape.
 */
module Summarizer {
  import opened Basics
  import opened Text
  import Templates

  /** One backend call: the reply text, or a transport/API fault. */
  datatype Outcome = Ok(reply: string) | Fault

  /** SUMMARY_DEVIATION_PERCENT and SUMMARY_MAX_TRIES, already read as integers. */
  datatype Config = Config(deviationPercent: int, maxTries: int)

  const DefaultConfig := Config(20, 2)

  /** `max(1, SUMMARY_MAX_TRIES)`: at least one attempt is always made. */
  function Tries(cfg: Config): (t: nat)
    ensures t >= 1 && t >= cfg.maxTries
    ensures t == cfg.maxTries || t == 1
  {
    if cfg.maxTries < 1 then 1 else cfg.maxTries
  }

  /** The requested summary length range [min_len, max_len]. */
  datatype Window = Window(minLen: nat, maxLen: nat)

  /** The window for a transcript of n characters: fixed [150, 250] below
      500, otherwise [max(150, n div 5), n div 3]. */
  function Bounds(n: nat): (w: Window)
    ensures 150 <= w.minLen <= w.maxLen
    ensures n < 500 ==> w.minLen == 150 && w.maxLen == 250
    ensures n >= 500 ==> 3 * w.maxLen <= n < 3 * w.maxLen + 3
    ensures 500 <= n < 750 ==> w.minLen == 150
    ensures n >= 750 ==> 5 * w.minLen <= n < 5 * w.minLen + 5
  {
    if n < 500 then Window(150, 250)
    else Window(if n / 5 > 150 then n / 5 else 150, n / 3)
  }

  /** The window widened by the deviation, both ends multiplied by 100:
      [min_len * (100 - d), max_len * (100 + d)]. */
  datatype Limits = Limits(low: int, high: int)

  function Widen(w: Window, deviation: int): Limits {
    Limits(w.minLen * (100 - deviation), w.maxLen * (100 + deviation))
  }

  /** `min_allowed <= length <= max_allowed`, multiplied through by 100 so
      that the comparison is exact. */
  predicate Accepts(lim: Limits, length: nat) {
    lim.low <= 100 * length <= lim.high
  }

  /** The limits summarize uses for a transcript of the given text. */
  function LimitsFor(text: string, cfg: Config): Limits {
    Widen(Bounds(|text|), cfg.deviationPercent)
  }

  /** The prompt every try sends: the template filled with the window of the
      transcript's length and the transcript, in that order. */
  function Prompt(text: string): (p: string)
    ensures Templates.InOrder(p, NatToString(Bounds(|text|).minLen), NatToString(Bounds(|text|).maxLen), text)
  {
    var w := Bounds(|text|);
    Templates.PromptEmbedsInOrder(w.minLen, w.maxLen, text);
    Templates.SummaryPrompt(w.minLen, w.maxLen, text)
  }

  /** The result of one attempt as the retry loop sees it. */
  datatype Attempt = Produced(text: string) | Raised

  /** Newer wrapper (bot/llm.py): the backend call strips the reply or
      substitutes the apology for a fault, and `_generate` strips again. */
  function Guarded(o: Outcome): (a: Attempt)
    ensures a.Produced? && Trimmed(a.text)
    ensures o.Ok? ==> a == Unguarded(o)
    ensures o.Fault? ==> a.text == Strip(Templates.Apology)
  {
    match o
    case Ok(reply) => Produced(Strip(Strip(reply)))
    case Fault => Produced(Strip(Templates.Apology))
  }

  /** Single-file wrapper: the reply is stripped twice in the same way, and a
      fault escapes. */
  function Unguarded(o: Outcome): (a: Attempt)
    ensures a.Produced? ==> Trimmed(a.text)
    ensures a.Raised? <==> o.Fault?
    ensures o.Ok? ==> a.text == Strip(Strip(o.reply))
  {
    match o
    case Ok(reply) => Produced(Strip(Strip(reply)))
    case Fault => Raised
  }

  /** What `_generate` hands back for one call when faults escape: the doubly
      stripped reply, or nothing. */
  function ReplyOf(o: Outcome): (r: Option<string>)
    ensures r.None? <==> o.Fault?
    ensures r.Some? ==> Trimmed(r.value)
  {
    match o
    case Ok(reply) => Some(Strip(Strip(reply)))
    case Fault => None
  }

  /** What a run returns: the summary (None when an exception escaped) and the
      number of backend calls it made. */
  datatype Run = Run(summary: Option<string>, calls: nat)

  /** The `for attempt in range(tries)` loop from attempt i on: stop at the
      first accepted text, keep the last text when none is accepted, and stop
      at once when an attempt raises. */
  function RetryFrom(attempts: seq<Attempt>, lim: Limits, tries: nat, i: nat): (r: Run)
    requires i < tries <= |attempts|
    ensures i < r.calls <= tries
    ensures forall j | i <= j < r.calls - 1 :: attempts[j].Produced? && !Accepts(lim, |attempts[j].text|)
    ensures r.summary.None? <==> attempts[r.calls - 1].Raised?
    ensures r.summary.Some? ==> r.summary.value == attempts[r.calls - 1].text
    ensures r.summary.Some? && !Accepts(lim, |r.summary.value|) ==> r.calls == tries
    decreases tries - i
  {
    match attempts[i]
    case Raised => Run(None, i + 1)
    case Produced(s) =>
      if Accepts(lim, |s|) || i == tries - 1 then Run(Some(s), i + 1)
      else RetryFrom(attempts, lim, tries, i + 1)
  }

  function GuardedAll(backend: seq<Outcome>): (r: seq<Attempt>)
    ensures |r| == |backend|
    ensures forall j | 0 <= j < |backend| :: r[j] == Guarded(backend[j])
  {
    if backend == [] then [] else [Guarded(backend[0])] + GuardedAll(backend[1..])
  }

  function UnguardedAll(backend: seq<Outcome>): (r: seq<Attempt>)
    ensures |r| == |backend|
    ensures forall j | 0 <= j < |backend| :: r[j] == Unguarded(backend[j])
  {
    if backend == [] then [] else [Unguarded(backend[0])] + UnguardedAll(backend[1..])
  }

  /** `LLMHandler.summarize` of bot/llm.py: never raises; returns the first
      attempt whose length is inside the widened window, or else the last of
      exactly Tries(cfg) attempts; a failed call counts as an attempt whose
      text is the apology. */
  function Summarize(text: string, cfg: Config, backend: seq<Outcome>): (r: Run)
    requires |backend| >= Tries(cfg)
    ensures r.summary.Some?
    ensures 1 <= r.calls <= Tries(cfg)
    ensures r.summary.value == Guarded(backend[r.calls - 1]).text
    ensures forall j | 0 <= j < r.calls - 1 ::
      !Accepts(LimitsFor(text, cfg), |Guarded(backend[j]).text|)
    ensures Accepts(LimitsFor(text, cfg), |r.summary.value|) || r.calls == Tries(cfg)
    ensures Trimmed(r.summary.value)
  {
    var attempts := GuardedAll(backend);
    var r := RetryFrom(attempts, LimitsFor(text, cfg), Tries(cfg), 0);
    r
  }

  /** `LLMHandler.summarize` of the single-file bot: the same loop, but the
      first failed call ends it with an exception (summary None). */
  function SummarizeLegacy(text: string, cfg: Config, backend: seq<Outcome>): (r: Run)
    requires |backend| >= Tries(cfg)
    ensures 1 <= r.calls <= Tries(cfg)
    ensures r.summary == ReplyOf(backend[r.calls - 1])
    ensures forall j | 0 <= j < r.calls - 1 ::
      backend[j].Ok? && !Accepts(LimitsFor(text, cfg), |Unguarded(backend[j]).text|)
    ensures r.summary.Some? ==>
      Accepts(LimitsFor(text, cfg), |r.summary.value|) || r.calls == Tries(cfg)
  {
    var attempts := UnguardedAll(backend);
    var r := RetryFrom(attempts, LimitsFor(text, cfg), Tries(cfg), 0);
    r
  }

  /** Two attempt sequences that agree on the attempts a run can reach give
      the same run. */
  lemma {:induction false} RetryAgrees(a1: seq<Attempt>, a2: seq<Attempt>, lim: Limits, tries: nat, i: nat)
    requires i < tries <= |a1| && tries <= |a2|
    requires forall j | i <= j < tries :: a1[j] == a2[j]
    ensures RetryFrom(a1, lim, tries, i) == RetryFrom(a2, lim, tries, i)
    decreases tries - i
  {
    if i + 1 < tries {
      RetryAgrees(a1, a2, lim, tries, i + 1);
    }
  }

  /** When no call of the run fails, the two versions behave identically. */
  lemma LegacyAgreesWithoutFaults(text: string, cfg: Config, backend: seq<Outcome>)
    requires |backend| >= Tries(cfg)
    requires forall j | 0 <= j < Tries(cfg) :: backend[j].Ok?
    ensures SummarizeLegacy(text, cfg, backend) == Summarize(text, cfg, backend)
  {
    var g := GuardedAll(backend);
    var u := UnguardedAll(backend);
    assert forall j | 0 <= j < Tries(cfg) :: g[j] == u[j];
    RetryAgrees(u, g, LimitsFor(text, cfg), Tries(cfg), 0);
  }

  /** The apology (58 characters) is below every window's widened lower
      bound whenever the deviation is at most 61 percent, so under the default
      configuration a failed call is never accepted and is retried. */
  lemma ApologyNeverAccepted(w: Window, d: int)
    requires 150 <= w.minLen
    requires d <= 61
    ensures !Accepts(Widen(w, d), |Strip(Templates.Apology)|)
  {
    assert |Templates.Apology| == 58;
    assert w.minLen * (100 - d) >= 150 * (100 - d) by {
      assert 100 - d >= 39;
    }
  }

  /** The retry scenario of a failed first call followed by an in-window
      reply: the summary is the second reply, after two calls. */
  lemma FaultThenFit(text: string, reply: string)
    requires Accepts(LimitsFor(text, DefaultConfig), |Strip(Strip(reply))|)
    ensures Summarize(text, DefaultConfig, [Fault, Ok(reply)]) == Run(Some(Strip(Strip(reply))), 2)
  {
    ApologyNeverAccepted(Bounds(|text|), 20);
  }
}
